/** Task signatures: the text a hash is taken of, and the same text rebuilt from the dumped data. */
module Signatures {
  import opened Wrappers
  import opened Sorting
  import Dependencies
  import Text

  const NOSTAMP := "nostamp:"

  /** `(pn:task id, tid)` */
  datatype Dep = Dep(pnid: string, tid: string)

  /** `(file name, checksum)`; an empty checksum stands for None as well. */
  datatype Sum = Sum(f: string, cs: string)

  predicate DepAtMost(a: Dep, b: Dep) { Less(a.pnid, b.pnid) || (a.pnid == b.pnid && AtMost(a.tid, b.tid)) }

  predicate SumAtMost(a: Sum, b: Sum) { AtMost(CleanPath(a.f), CleanPath(b.f)) }

  // ----- file names -----

  /** `s.find(pat)`, or the length. */
  function FindText(s: string, pat: string): (i: nat)
    ensures i <= |s|
    ensures Text.Contains(s, pat) ==> i + |pat| <= |s|
  {
    if |s| == 0 || Text.StartsWith(s, pat) then 0 else 1 + FindText(s[1..], pat)
  }

  /** `f.split("/./")[1]` */
  function AfterDot(f: string): string
    requires Text.Contains(f, "/./")
  {
    var rest := f[FindText(f, "/./") + 3..];
    rest[..FindText(rest, "/./")]
  }

  /** `clean_checksum_file_path` */
  function CleanPath(f: string): string {
    if Text.Contains(f, "/./") then "./" + AfterDot(f) else f
  }

  /** `os.path.basename` */
  function BaseName(f: string): (name: string)
    ensures '/' !in name
  {
    f[Text.RFind(f, '/') + 1..]
  }

  /** The name a dump keeps of a file. */
  function DumpedName(f: string): string {
    if Text.Contains(f, "/./") then "./" + AfterDot(f) else BaseName(f)
  }

  lemma {:induction false} NoSlashNoDot(s: string)
    requires '/' !in s
    ensures !Text.Contains(s, "./")
  {
    assert |s| > 1 ==> s[1] != '/';
    if |s| > 0 {
      NoSlashNoDot(s[1..]);
    }
  }

  /** The dumped name still tells whether the full one had the marker. */
  lemma DumpedNameTells(f: string)
    ensures Text.Contains(DumpedName(f), "./") <==> Text.Contains(f, "/./")
  {
    if Text.Contains(f, "/./") {
      assert DumpedName(f)[..2] == "./";
    } else {
      NoSlashNoDot(BaseName(f));
    }
  }

  // ----- the text of a task hash -----

  function DepsText(unihash: string -> string, ds: seq<Dep>): string {
    if |ds| == 0 then "" else DepsText(unihash, ds[..|ds| - 1]) + unihash(ds[|ds| - 1].tid)
  }

  function SumText(x: Sum): string {
    if x.cs == "" then "" else (if Text.Contains(x.f, "/./") then "./" + AfterDot(x.f) else "") + x.cs
  }

  function SumsText(xs: seq<Sum>): string {
    if |xs| == 0 then "" else SumsText(xs[..|xs| - 1]) + SumText(xs[|xs| - 1])
  }

  function TaintText(taint: Option<string>): string {
    match taint
    case None => ""
    case Some(t) => if Text.StartsWith(t, NOSTAMP) then t[8..] else t
  }

  function TaskText(base: string, unihash: string -> string, ds: seq<Dep>, xs: seq<Sum>,
      taint: Option<string>): string {
    base + DepsText(unihash, SortBy(DepAtMost, ds)) + SumsText(SortBy(SumAtMost, xs)) + TaintText(taint)
  }

  // ----- the same from dumped data -----

  /** The part of a dump that a base hash is made of. */
  datatype BaseData = BaseData(task: string, taskdeps: set<string>, varvals: map<string, Option<string>>)

  /** The part that a task hash is made of. */
  datatype RunData = RunData(
    basehash: string, runtaskdeps: seq<string>, sums: seq<Sum>, runtaskhashes: map<string, string>,
    taint: Option<string>)

  function HashesText(hashes: map<string, string>, ids: seq<string>): string
    requires forall id <- ids :: id in hashes
  {
    if |ids| == 0 then "" else HashesText(hashes, ids[..|ids| - 1]) + hashes[ids[|ids| - 1]]
  }

  function DumpedSumText(c: Sum): string {
    if c.cs == "" then "" else (if Text.Contains(c.f, "./") then c.f else "") + c.cs
  }

  function DumpedSumsText(cs: seq<Sum>): string {
    if |cs| == 0 then "" else DumpedSumsText(cs[..|cs| - 1]) + DumpedSumText(cs[|cs| - 1])
  }

  function DumpedTaintText(taint: Option<string>): string {
    match taint
    case None => ""
    case Some(t) => if Text.Contains(t, NOSTAMP) then if |t| >= 8 then t[8..] else "" else t
  }

  function RunText(d: RunData): string
    requires forall id <- d.runtaskdeps :: id in d.runtaskhashes
  {
    d.basehash + HashesText(d.runtaskhashes, d.runtaskdeps) + DumpedSumsText(d.sums) + DumpedTaintText(d.taint)
  }

  /** `calc_basehash`, which raises KeyError when a value was not dumped. */
  method CalcBasehash(d: BaseData, sha: string -> string) returns (r: Result<string>)
    requires d.task in d.varvals
    ensures r.Ok? <==> d.taskdeps <= d.varvals.Keys
    ensures r.Ok? ==> r.value == sha(Dependencies.BaseText(d.varvals, d.task, d.taskdeps))
  {
    hide Dependencies.ValueText, Dependencies.NamesAndValues;
    var basedata := Dependencies.ValueText(d.varvals[d.task]);
    ghost var front := basedata;
    Dependencies.NoNames(d.varvals, basedata);
    var alldeps := Sorted(d.taskdeps);
    for i := 0 to |alldeps|
      invariant forall j :: 0 <= j < i ==> alldeps[j] in d.varvals
      invariant basedata == front + Dependencies.NamesAndValues(d.varvals, alldeps[..i])
    {
      var dep := alldeps[i];
      if dep !in d.varvals {
        assert dep in alldeps;
        return Raised;
      }
      basedata := basedata + dep;
      basedata := basedata + Dependencies.ValueText(d.varvals[dep]);
      Dependencies.OneMoreName(d.varvals, alldeps, i, front);
    }
    assert alldeps[..|alldeps|] == alldeps;
    r := Ok(sha(basedata));
  }

  /** `calc_taskhash` */
  method CalcTaskhash(d: RunData, sha: string -> string) returns (r: Result<string>)
    ensures r.Ok? <==> forall id <- d.runtaskdeps :: id in d.runtaskhashes
    ensures r.Ok? ==> r.value == sha(RunText(d))
  {
    hide DumpedSumText, Text.Contains, DumpedTaintText;
    var hashes := AddHashes(d);
    if hashes.Raised? {
      return Raised;
    }
    var data := AddDumpedSums(hashes.value, d.sums);
    data := AddDumpedTaint(data, d.taint);
    r := Ok(sha(data));
  }

  /** The base hash and the hashes of the dependencies. */
  method AddHashes(d: RunData) returns (r: Result<string>)
    ensures r.Ok? <==> forall id <- d.runtaskdeps :: id in d.runtaskhashes
    ensures r.Ok? ==> r.value == d.basehash + HashesText(d.runtaskhashes, d.runtaskdeps)
  {
    var data := d.basehash;
    for i := 0 to |d.runtaskdeps|
      invariant forall j :: 0 <= j < i ==> d.runtaskdeps[j] in d.runtaskhashes
      invariant data == d.basehash + HashesText(d.runtaskhashes, d.runtaskdeps[..i])
    {
      var dep := d.runtaskdeps[i];
      if dep !in d.runtaskhashes {
        return Raised;
      }
      assert d.runtaskdeps[..i + 1][..i] == d.runtaskdeps[..i];
      data := data + d.runtaskhashes[dep];
    }
    assert d.runtaskdeps[..|d.runtaskdeps|] == d.runtaskdeps;
    r := Ok(data);
  }

  method AddDumpedSums(front: string, sums: seq<Sum>) returns (data: string)
    ensures data == front + DumpedSumsText(sums)
  {
    hide DumpedSumText;
    data := front;
    for i := 0 to |sums|
      invariant data == front + DumpedSumsText(sums[..i])
    {
      assert sums[..i + 1][..i] == sums[..i];
      data := AddDumpedSum(data, sums[i]);
    }
    assert sums[..|sums|] == sums;
  }

  method AddDumpedSum(data: string, c: Sum) returns (more: string)
    ensures more == data + DumpedSumText(c)
  {
    more := data;
    if c.cs != "" {
      if Text.Contains(c.f, "./") {
        more := more + c.f;
      }
      more := more + c.cs;
    }
  }

  method AddDumpedTaint(data: string, taint: Option<string>) returns (more: string)
    ensures more == data + DumpedTaintText(taint)
  {
    more := data;
    if taint.Some? {
      if Text.Contains(taint.value, NOSTAMP) {
        more := more + if |taint.value| >= 8 then taint.value[8..] else "";
      } else {
        more := more + taint.value;
      }
    }
  }

  // ----- what the dump keeps -----

  function Ids(ds: seq<Dep>): (ids: seq<string>)
    ensures |ids| == |ds| && forall i :: 0 <= i < |ds| ==> ids[i] == ds[i].pnid
  {
    seq(|ds|, i requires 0 <= i < |ds| => ds[i].pnid)
  }

  function DumpedSums(xs: seq<Sum>): (cs: seq<Sum>)
    ensures |cs| == |xs| && forall i :: 0 <= i < |xs| ==> cs[i] == Sum(DumpedName(xs[i].f), xs[i].cs)
  {
    seq(|xs|, i requires 0 <= i < |xs| => Sum(DumpedName(xs[i].f), xs[i].cs))
  }

  /** Dependencies that share a pn:task id share a unihash, as they do when the ids are distinct. */
  ghost predicate IdsTell(unihash: string -> string, ds: seq<Dep>) {
    forall a <- ds, b <- ds :: a.pnid == b.pnid ==> unihash(a.tid) == unihash(b.tid)
  }

  /** Every dependency is found in the dumped map. */
  ghost predicate Recorded(unihash: string -> string, ds: seq<Dep>, hashes: map<string, string>) {
    forall a <- ds :: a.pnid in hashes && hashes[a.pnid] == unihash(a.tid)
  }

  lemma {:induction false} DepsTextsAgree(unihash: string -> string, ds: seq<Dep>, hashes: map<string, string>)
    requires Recorded(unihash, ds, hashes)
    ensures forall id <- Ids(ds) :: id in hashes
    ensures HashesText(hashes, Ids(ds)) == DepsText(unihash, ds)
    decreases |ds|
  {
    forall id <- Ids(ds) ensures id in hashes {
      var i :| 0 <= i < |ds| && Ids(ds)[i] == id;
      assert ds[i] in ds;
    }
    if |ds| > 0 {
      assert Ids(ds)[..|ds| - 1] == Ids(ds[..|ds| - 1]);
      assert ds[|ds| - 1] in ds;
      DepsTextsAgree(unihash, ds[..|ds| - 1], hashes);
    }
  }

  lemma {:induction false} SumsTextsAgree(xs: seq<Sum>)
    ensures DumpedSumsText(DumpedSums(xs)) == SumsText(xs)
    decreases |xs|
  {
    hide DumpedName, AfterDot, Text.Contains;
    if |xs| > 0 {
      assert DumpedSums(xs)[..|xs| - 1] == DumpedSums(xs[..|xs| - 1]);
      SumsTextsAgree(xs[..|xs| - 1]);
      SumTextsAgree(xs[|xs| - 1]);
    }
  }

  lemma SumTextsAgree(x: Sum)
    ensures DumpedSumText(Sum(DumpedName(x.f), x.cs)) == SumText(x)
  {
    DumpedNameTells(x.f);
  }

  /** The taint that a dump records: the taint file, unless the generator holds a nostamp taint. */
  function DumpedTaint(taint: Option<string>, file: string): Option<string> {
    if taint.Some? && Text.Contains(taint.value, NOSTAMP) then taint
    else if file != "" then Some(file)
    else None
  }

  function Stripped(file: string): string {
    if Text.Contains(file, NOSTAMP) && |file| >= 8 then file[8..] else file
  }

  /**
   When the dumped taint gives the hashed text: a taint with the marker has it in front, any other taint
   is what the taint file says, and without a taint the file is empty or no more than the marker.
   */
  predicate TaintKept(taint: Option<string>, file: string) {
    match taint
    case None => file == "" || file == NOSTAMP
    case Some(t) => if Text.Contains(t, NOSTAMP) then Text.StartsWith(t, NOSTAMP) else t == Stripped(file)
  }

  lemma {:induction false} ContainsIsLong(s: string, pat: string)
    requires Text.Contains(s, pat)
    ensures |s| >= |pat| && (|s| == |pat| ==> s == pat)
  {
    if Text.StartsWith(s, pat) {
      assert |s| == |pat| ==> s == s[..|pat|];
    } else {
      ContainsIsLong(s[1..], pat);
    }
  }

  lemma TaintTextsAgree(taint: Option<string>, file: string)
    ensures DumpedTaintText(DumpedTaint(taint, file)) == TaintText(taint) <==> TaintKept(taint, file)
  {
    hide Text.Contains;
    if Text.Contains(file, NOSTAMP) { ContainsIsLong(file, NOSTAMP); }
    PrefixIsContained(file);
    ContainsNostamp();
    if taint.Some? {
      PrefixIsContained(taint.value);
      if Text.Contains(taint.value, NOSTAMP) { ContainsIsLong(taint.value, NOSTAMP); }
    }
  }

  lemma PrefixIsContained(s: string)
    ensures Text.StartsWith(s, NOSTAMP) ==> Text.Contains(s, NOSTAMP)
  {
  }

  lemma ContainsNostamp()
    ensures Text.Contains(NOSTAMP, NOSTAMP) && NOSTAMP[8..] == "" && |NOSTAMP| == 8 && !Text.Contains("", NOSTAMP)
  {
  }

  /** The dump of one task's run-time data. */
  ghost predicate Dumped(
      base: string, unihash: string -> string, ds: seq<Dep>, xs: seq<Sum>, taint: Option<string>, file: string,
      d: RunData)
  {
    && d.basehash == base && d.runtaskdeps == Ids(SortBy(DepAtMost, ds))
    && d.sums == DumpedSums(SortBy(SumAtMost, xs))
    && d.taint == DumpedTaint(taint, file)
    && (forall id <- d.runtaskdeps :: id in d.runtaskhashes)
    && (IdsTell(unihash, ds) ==> Recorded(unihash, ds, d.runtaskhashes))
  }

  /**
   The text that `calc_taskhash` rebuilds from a dump is the text that `get_taskhash` hashed, exactly when
   the dumped taint says what the taint said.
   */
  lemma TaskTextsAgree(
      base: string, unihash: string -> string, ds: seq<Dep>, xs: seq<Sum>, taint: Option<string>, file: string,
      d: RunData)
    requires Dumped(base, unihash, ds, xs, taint, file, d) && IdsTell(unihash, ds)
    ensures forall id <- d.runtaskdeps :: id in d.runtaskhashes
    ensures RunText(d) == TaskText(base, unihash, ds, xs, taint) <==> TaintKept(taint, file)
  {
    hide DepsText, HashesText, SumsText, DumpedSumsText, DumpedTaintText, TaintText, TaintKept, DumpedTaint, SortBy;
    var sorted := SortBy(DepAtMost, ds);
    SameMembers(sorted, ds);
    DepsTextsAgree(unihash, sorted, d.runtaskhashes);
    SumsTextsAgree(SortBy(SumAtMost, xs));
    TaintTextsAgree(taint, file);
    SamePrefix(base + DepsText(unihash, sorted) + SumsText(SortBy(SumAtMost, xs)),
      TaintText(taint), DumpedTaintText(d.taint));
  }

  lemma DumpedIds(
      base: string, unihash: string -> string, ds: seq<Dep>, xs: seq<Sum>, taint: Option<string>, file: string,
      d: RunData)
    requires Dumped(base, unihash, ds, xs, taint, file, d)
    ensures forall id <- d.runtaskdeps :: id in d.runtaskhashes
  {
  }

  lemma SortedIds(ds: seq<Dep>, hashes: map<string, string>)
    requires forall i :: 0 <= i < |ds| ==> ds[i].pnid in hashes
    ensures forall id <- Ids(SortBy(DepAtMost, ds)) :: id in hashes
  {
    hide SortBy, DepAtMost;
    var sorted := SortBy(DepAtMost, ds);
    SameMembers(sorted, ds);
    forall i | 0 <= i < |sorted| ensures sorted[i].pnid in hashes {
      assert sorted[i] in ds;
    }
  }

  lemma SamePrefix(p: string, a: string, b: string)
    ensures p + a == p + b <==> a == b
  {
    assert (p + a)[|p|..] == a && (p + b)[|p|..] == b;
  }

  // ----- the generator -----

  /** `siggen_taskdeps[mcfn]`, `siggen_gendeps[mcfn]` and `siggen_varvals[mcfn]` */
  datatype Recipe = Recipe(
    taskdeps: map<string, set<string>>, gendeps: map<string, set<string>>, varvals: map<string, Option<string>>)

  datatype SigData = SigData(base: BaseData, gendeps: map<string, set<string>>, run: Option<RunData>)

  /** The taint of a task once prepared: a nostamp one stays, and what the taint file says comes last. */
  function PreparedTaint(was: Option<string>, nostamp: bool, uuid: string, file: string): Option<string> {
    if file != "" then Some(file)
    else if nostamp && !(was.Some? && Text.StartsWith(was.value, NOSTAMP)) then Some(NOSTAMP + uuid)
    else was
  }

  /**
   With the same taint file, the dump keeps what preparing left exactly when the file has the marker in
   front or not at all, and, without a file, when no taint is left over from a file that is gone.
   */
  lemma PreparedTaintIsKept(was: Option<string>, nostamp: bool, uuid: string, file: string)
    ensures TaintKept(PreparedTaint(was, nostamp, uuid, file), file)
       <==> if file != "" then Text.StartsWith(file, NOSTAMP) || !Text.Contains(file, NOSTAMP)
            else nostamp || was.None? || was.value == "" || Text.StartsWith(was.value, NOSTAMP)
  {
    hide Text.Contains;
    PrefixIsContained(file);
    ContainsNostamp();
    assert Text.StartsWith(NOSTAMP + uuid, NOSTAMP);
    PrefixIsContained(NOSTAMP + uuid);
    if was.Some? { PrefixIsContained(was.value); }
  }

  /** The values and dependencies of the kept names, and the value of the task. */
  ghost predicate Kept(
      recipe: Recipe, task: string, kept: set<string>, varvals: map<string, Option<string>>,
      gendeps: map<string, set<string>>)
  {
    && varvals.Keys == kept + {task} && gendeps.Keys == kept
    && (forall x <- varvals.Keys :: x in recipe.varvals && varvals[x] == recipe.varvals[x])
    && (forall x <- kept :: x in recipe.gendeps && gendeps[x] == recipe.gendeps[x])
  }

  lemma KeepNone(recipe: Recipe, task: string)
    requires task in recipe.varvals
    ensures Kept(recipe, task, {}, map[task := recipe.varvals[task]], map[])
  {
  }

  lemma KeptKeys(
      recipe: Recipe, task: string, kept: set<string>, varvals: map<string, Option<string>>,
      gendeps: map<string, set<string>>)
    requires Kept(recipe, task, kept, varvals, gendeps)
    ensures varvals.Keys == kept + {task} && kept <= recipe.gendeps.Keys && kept <= recipe.varvals.Keys
  {
    assert forall x <- kept :: x in varvals.Keys;
  }

  lemma KeepOne(
      recipe: Recipe, task: string, kept: set<string>, varvals: map<string, Option<string>>,
      gendeps: map<string, set<string>>, dep: string)
    requires Kept(recipe, task, kept, varvals, gendeps) && dep in recipe.varvals && dep in recipe.gendeps
    ensures Kept(recipe, task, kept + {dep}, varvals[dep := recipe.varvals[dep]], gendeps[dep := recipe.gendeps[dep]])
  {
  }

  /** The text depends on the values of the task and its dependencies only. */
  lemma {:induction false} SameNamesAndValues(a: map<string, Option<string>>, b: map<string, Option<string>>,
      names: seq<string>)
    requires forall x <- names :: x in a && x in b && a[x] == b[x]
    ensures Dependencies.NamesAndValues(a, names) == Dependencies.NamesAndValues(b, names)
    decreases |names|
  {
    if |names| > 0 {
      assert names[|names| - 1] in names;
      SameNamesAndValues(a, b, names[..|names| - 1]);
    }
  }

  lemma DumpedBaseText(
      recipe: Recipe, task: string, kept: set<string>, varvals: map<string, Option<string>>,
      gendeps: map<string, set<string>>, deps: set<string>)
    requires Kept(recipe, task, kept, varvals, gendeps) && deps <= varvals.Keys
    ensures task in recipe.varvals && deps <= recipe.varvals.Keys
    ensures Dependencies.BaseText(varvals, task, deps) == Dependencies.BaseText(recipe.varvals, task, deps)
  {
    SameNamesAndValues(varvals, recipe.varvals, Sorted(deps));
  }

  class SiggenBasic {
    const sha: string -> string
    const ignoreVars: set<string>
    var basehash: map<string, string>
    var taskhash: map<string, string>
    var runtaskdeps: map<string, seq<Dep>>
    var sums: map<string, seq<Sum>>
    var taints: map<string, string>

    constructor (sha: string -> string, ignoreVars: set<string>)
      ensures this.sha == sha && this.ignoreVars == ignoreVars
      ensures basehash == map[] && taskhash == map[] && runtaskdeps == map[] && sums == map[] && taints == map[]
    {
      this.sha, this.ignoreVars := sha, ignoreVars;
      basehash, taskhash, runtaskdeps, sums, taints := map[], map[], map[], map[], map[];
    }

    function Taint(tid: string): Option<string>
      reads this
    {
      if tid in taints then Some(taints[tid]) else None
    }

    /** Prepared by `prep_taskhash`. */
    predicate Prepared(tid: string)
      reads this
    {
      tid in basehash && tid in runtaskdeps && tid in sums
    }

    /** The text hashed for a task. */
    function TextOf(tid: string, unihash: string -> string): string
      requires Prepared(tid)
      reads this
    {
      TaskText(basehash[tid], unihash, runtaskdeps[tid], sums[tid], Taint(tid))
    }

    /** The taints that `prep_taskhash` leaves: a nostamp one stays, and the taint file comes last. */
    method PrepTaint(tid: string, nostamp: bool, uuid: string, file: string)
      modifies this`taints
      ensures forall t :: t != tid ==> Taint(t) == old(Taint(t))
      ensures Taint(tid) == PreparedTaint(old(Taint(tid)), nostamp, uuid, file)
    {
      if nostamp {
        if !(tid in taints && Text.StartsWith(taints[tid], NOSTAMP)) {
          taints := taints[tid := NOSTAMP + uuid];
        }
      }
      if file != "" {
        taints := taints[tid := file];
      }
    }

    /** `get_taskhash` */
    method GetTaskhash(tid: string, unihash: string -> string) returns (h: string)
      requires Prepared(tid)
      modifies this`taskhash
      ensures h == sha(TextOf(tid, unihash)) && taskhash == old(taskhash)[tid := h]
    {
      hide SumText, TaintText, SortBy;
      var data := basehash[tid];
      var deps := SortBy(DepAtMost, runtaskdeps[tid]);
      for i := 0 to |deps|
        invariant data == basehash[tid] + DepsText(unihash, deps[..i])
        modifies {}
      {
        assert deps[..i + 1][..i] == deps[..i];
        data := data + unihash(deps[i].tid);
      }
      assert deps[..|deps|] == deps;
      ghost var front := data;
      var checksums := SortBy(SumAtMost, sums[tid]);
      for i := 0 to |checksums|
        invariant data == front + SumsText(checksums[..i])
        modifies {}
      {
        assert checksums[..i + 1][..i] == checksums[..i];
        data := AddSum(data, checksums[i]);
      }
      assert checksums[..|checksums|] == checksums;
      data := AddTaint(data, Taint(tid));
      h := sha(data);
      taskhash := taskhash[tid := h];
    }

    /** The values of the task and of the dependencies that are not ignored. */
    method DumpBase(recipe: Recipe, task: string) returns (r: Result<SigData>)
      requires task in recipe.taskdeps && task in recipe.varvals
      ensures r.Ok? <==> forall dep <- recipe.taskdeps[task] ::
        dep in ignoreVars || dep in recipe.gendeps.Keys * recipe.varvals.Keys
      ensures r.Ok? ==> r.value.run.None? && r.value.base.task == task && r.value.base.taskdeps == recipe.taskdeps[task]
      ensures r.Ok? ==> Kept(recipe, task, recipe.taskdeps[task] - ignoreVars, r.value.base.varvals, r.value.gendeps)
    {
      hide Kept;
      KeepNone(recipe, task);
      var varvals := map[task := recipe.varvals[task]];
      var gendeps: map<string, set<string>> := map[];
      var todo, deps := recipe.taskdeps[task], recipe.taskdeps[task];
      ghost var kept: set<string> := {};
      while todo != {}
        invariant todo <= deps && Kept(recipe, task, kept, varvals, gendeps)
        invariant forall x :: x in kept <==> x in deps && x !in todo && x !in ignoreVars
        decreases |todo|
      {
        var dep :| dep in todo;
        todo := todo - {dep};
        if dep in ignoreVars {
          continue;
        }
        if dep !in recipe.gendeps || dep !in recipe.varvals {
          return Raised;
        }
        KeepOne(recipe, task, kept, varvals, gendeps, dep);
        gendeps := gendeps[dep := recipe.gendeps[dep]];
        varvals := varvals[dep := recipe.varvals[dep]];
        kept := kept + {dep};
      }
      assert kept == deps - ignoreVars;
      KeptKeys(recipe, task, kept, varvals, gendeps);
      r := Ok(SigData(BaseData(task, deps, varvals), gendeps, None));
    }

    /** The run-time part; a dependency that repeats an id overwrites the earlier one. */
    method DumpRun(tid: string, unihash: string -> string, file: string) returns (d: RunData)
      requires Prepared(tid)
      ensures Dumped(basehash[tid], unihash, runtaskdeps[tid], sums[tid], Taint(tid), file, d)
    {
      hide Text.Contains, DumpedName, SortBy;
      var deps := runtaskdeps[tid];
      var hashes: map<string, string> := map[];
      for i := 0 to |deps|
        invariant IdsTell(unihash, deps) ==> Recorded(unihash, deps[..i], hashes)
        invariant forall j :: 0 <= j < i ==> deps[j].pnid in hashes
      {
        assert deps[i] in deps && forall a <- deps[..i] :: a in deps;
        hashes := hashes[deps[i].pnid := unihash(deps[i].tid)];
      }
      assert deps[..|deps|] == deps;
      var cs: seq<Sum>, all := [], SortBy(SumAtMost, sums[tid]);
      for i := 0 to |all|
        invariant |cs| == i && forall j :: 0 <= j < i ==> cs[j] == Sum(DumpedName(all[j].f), all[j].cs)
      {
        cs := cs + [Sum(DumpedName(all[i].f), all[i].cs)];
      }
      assert cs == DumpedSums(all);
      var taint: Option<string> := None;
      if file != "" {
        taint := Some(file);
      }
      if tid in taints {
        if Text.Contains(taints[tid], NOSTAMP) {
          taint := Some(taints[tid]);
        }
      }
      SortedIds(deps, hashes);
      d := RunData(basehash[tid], Ids(SortBy(DepAtMost, deps)), cs, hashes, taint);
    }

    /**
     `dump_sigtask`: what is dumped, and whether the base hash and the task hash computed from it are the
     ones on record. With a base hash and a task hash as first computed, the base hash always agrees, and
     the task hash does when the ids tell the dependencies apart and the taint is kept. A dependency that
     is ignored makes it raise KeyError.
     */
    method DumpSigtask(recipe: Recipe, task: string, tid: string, unihash: string -> string, file: string,
        runtime: bool)
      returns (r: Result<SigData>, baseAgrees: bool, taskAgrees: bool)
      requires task in recipe.taskdeps && task in recipe.varvals && Prepared(tid)
      ensures r.Ok? <==> forall dep <- recipe.taskdeps[task] ::
                if dep in ignoreVars then dep == task else dep in recipe.gendeps.Keys * recipe.varvals.Keys
      ensures r.Ok? && basehash[tid] == sha(Dependencies.BaseText(recipe.varvals, task, recipe.taskdeps[task])) ==>
        baseAgrees
      ensures r.Ok? ==> (r.value.run.Some? <==> runtime && tid in taskhash)
      ensures r.Ok? && r.value.run.Some?
           ==> Dumped(basehash[tid], unihash, runtaskdeps[tid], sums[tid], Taint(tid), file, r.value.run.value)
               && (taskAgrees <==> tid in taskhash && taskhash[tid] == sha(RunText(r.value.run.value)))
      ensures r.Ok? && r.value.run.Some? && taskhash[tid] == sha(TextOf(tid, unihash))
              && IdsTell(unihash, runtaskdeps[tid]) && TaintKept(Taint(tid), file)
           ==> taskAgrees
    {
      hide Dependencies.BaseText, RunText, TaskText, TaintKept, Dumped, IdsTell, Kept;
      baseAgrees, taskAgrees := false, false;
      var dumped := DumpBase(recipe, task);
      if dumped.Raised? {
        return Raised, false, false;
      }
      var data := dumped.value;
      if runtime && tid in taskhash {
        var d := DumpRun(tid, unihash, file);
        data := data.(run := Some(d));
      }
      KeptKeys(recipe, task, data.base.taskdeps - ignoreVars, data.base.varvals, data.gendeps);
      var base := CalcBasehash(data.base, sha);
      if base.Raised? {
        return Raised, false, false;
      }
      DumpedBaseText(recipe, task, data.base.taskdeps - ignoreVars, data.base.varvals,
        data.gendeps, data.base.taskdeps);
      baseAgrees := base.value == basehash[tid];
      if data.run.Some? {
        DumpedIds(basehash[tid], unihash, runtaskdeps[tid], sums[tid], Taint(tid), file, data.run.value);
        var found := CalcTaskhash(data.run.value, sha);
        taskAgrees := found == Ok(taskhash[tid]);
        if IdsTell(unihash, runtaskdeps[tid]) {
          TaskTextsAgree(basehash[tid], unihash, runtaskdeps[tid], sums[tid], Taint(tid), file, data.run.value);
        }
      }
      r := Ok(data);
    }
  }

  method AddSum(data: string, x: Sum) returns (more: string)
    ensures more == data + SumText(x)
  {
    more := data;
    if x.cs != "" {
      if Text.Contains(x.f, "/./") {
        more := more + "./" + AfterDot(x.f);
      }
      more := more + x.cs;
    }
  }

  method AddTaint(data: string, taint: Option<string>) returns (more: string)
    ensures more == data + TaintText(taint)
  {
    more := data;
    if taint.Some? {
      if Text.StartsWith(taint.value, NOSTAMP) {
        more := more + taint.value[8..];
      } else {
        more := more + taint.value;
      }
    }
  }
}