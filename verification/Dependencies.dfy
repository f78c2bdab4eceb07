/** Variable dependencies of tasks: the two worklists, and the text that a base hash is taken of. */
module Dependencies {
  import opened Wrappers
  import opened Sorting

  /** What `build_dependencies` gives for one name, for a fixed datastore. */
  datatype Built = Built(deps: set<string>, value: Option<string>)

  type Graph = map<string, set<string>>

  function Succ(g: Graph, x: string): set<string> { if x in g then g[x] else {} }

  /** `y` can be reached from `x` in `n + 1` steps. */
  ghost predicate ReachIn(g: Graph, x: string, y: string, n: nat)
    decreases n
  {
    if n == 0 then y in Succ(g, x) else exists z :: ReachIn(g, x, z, n - 1) && y in Succ(g, z)
  }

  /** In one or more. */
  ghost predicate Reaches(g: Graph, x: string, y: string) { exists n: nat :: ReachIn(g, x, y, n) }

  /** No name of the map points outside it. */
  predicate Closed(g: Graph) { forall x <- g.Keys :: g[x] <= g.Keys }

  // ----- reachability -----

  lemma ReachOne(g: Graph, x: string, y: string)
    requires y in Succ(g, x)
    ensures Reaches(g, x, y)
  {
    assert ReachIn(g, x, y, 0);
  }

  lemma ReachMore(g: Graph, x: string, y: string, z: string)
    requires Reaches(g, x, y) && z in Succ(g, y)
    ensures Reaches(g, x, z)
  {
    var n: nat :| ReachIn(g, x, y, n);
    assert ReachIn(g, x, z, n + 1);
  }

  /** A set that holds the first step and every further step holds all that can be reached. */
  lemma {:induction false} ReachStays(g: Graph, x: string, y: string, n: nat, s: set<string>)
    requires ReachIn(g, x, y, n) && Succ(g, x) <= s && forall z <- s :: Succ(g, z) <= s
    ensures y in s
    decreases n
  {
    if n > 0 {
      var z :| ReachIn(g, x, z, n - 1) && y in Succ(g, z);
      ReachStays(g, x, z, n - 1, s);
    }
  }

  lemma {:induction false} ReachGrows(g: Graph, h: Graph, x: string, y: string, n: nat)
    requires ReachIn(g, x, y, n) && forall z <- g.Keys :: z in h && h[z] == g[z]
    ensures ReachIn(h, x, y, n)
    decreases n
  {
    if n > 0 {
      var z :| ReachIn(g, x, z, n - 1) && y in Succ(g, z);
      ReachGrows(g, h, x, z, n - 1);
      assert ReachIn(h, x, z, n - 1) && y in Succ(h, z);
    }
  }

  // ----- generate_dependency_hash -----

  ghost predicate IsReach(g: Graph, x: string, seen: set<string>) { forall y :: y in seen <==> Reaches(g, x, y) }

  /** All names that occur as a dependency. */
  function Targets(g: Graph): set<string> { set x, y | x in g && y in g[x] :: y }

  /** The worklist is half done: `seen` has been expanded into itself and `newdeps`, all of it reachable. */
  ghost predicate Searching(g: Graph, task: string, seen: set<string>, newdeps: set<string>) {
    && seen !! newdeps && Succ(g, task) <= seen + newdeps
    && (forall z <- seen :: Succ(g, z) <= seen + newdeps)
    && (forall y <- seen + newdeps :: Reaches(g, task, y))
    && seen + newdeps <= Targets(g)
  }

  /** All names needed for one task are in both maps. */
  ghost predicate Complete(g: Graph, lookupcache: map<string, Option<string>>, task: string) {
    task in g && task in lookupcache && forall y | Reaches(g, task, y) :: y in g && y in lookupcache
  }

  lemma SearchStarts(g: Graph, task: string)
    requires task in g
    ensures Searching(g, task, {}, g[task])
  {
    forall y <- g[task] ensures Reaches(g, task, y) { ReachOne(g, task, y); }
  }

  lemma SearchMoves(g: Graph, task: string, seen: set<string>, nextdeps: set<string>, found: set<string>)
    requires Searching(g, task, seen, nextdeps) && nextdeps <= g.Keys
    requires forall y :: y in found <==> exists z <- nextdeps :: y in Succ(g, z)
    ensures Searching(g, task, seen + nextdeps, found - (seen + nextdeps))
  {
    forall y <- found ensures Reaches(g, task, y) && y in Targets(g) {
      var z :| z in nextdeps && y in Succ(g, z);
      ReachMore(g, task, z, y);
    }
  }

  lemma SearchEnds(g: Graph, task: string, seen: set<string>)
    requires Searching(g, task, seen, {})
    ensures IsReach(g, task, seen)
  {
    forall y | Reaches(g, task, y) ensures y in seen {
      var n: nat :| ReachIn(g, task, y, n);
      ReachStays(g, task, y, n, seen);
    }
  }

  /** The inner `for dep in nextdeps`, which looks each name up. */
  method Expand(g: Graph, nextdeps: set<string>) returns (r: Result<set<string>>)
    ensures r.Ok? <==> nextdeps <= g.Keys
    ensures r.Ok? ==> forall y :: y in r.value <==> exists z <- nextdeps :: y in Succ(g, z)
  {
    var found: set<string>, todo := {}, nextdeps;
    while todo != {}
      invariant todo <= nextdeps && nextdeps - todo <= g.Keys
      invariant forall y :: y in found <==> exists z <- nextdeps - todo :: y in Succ(g, z)
      decreases |todo|
    {
      var dep :| dep in todo;
      if dep !in g {
        return Raised;
      }
      var was := nextdeps - todo;
      todo := todo - {dep};
      assert nextdeps - todo == was + {dep};
      found := found + g[dep];
    }
    assert nextdeps - todo == nextdeps;
    r := Ok(found);
  }

  /** The names a task depends on, cycles included; a missing name raises KeyError. */
  method Closure(g: Graph, task: string) returns (r: Result<set<string>>)
    ensures r.Ok? <==> task in g && forall y | Reaches(g, task, y) :: y in g
    ensures r.Ok? ==> IsReach(g, task, r.value)
  {
    hide Reaches, Targets, IsReach, Searching;
    if task !in g {
      return Raised;
    }
    var newdeps, seen := g[task], {};
    SearchStarts(g, task);
    while newdeps != {}
      invariant Searching(g, task, seen, newdeps) && seen <= g.Keys
      decreases Targets(g) - seen
    {
      var nextdeps := newdeps;
      SearchingMeans(g, task, seen, nextdeps);
      var found := Expand(g, nextdeps);
      if found.Raised? {
        var y :| y in nextdeps && y !in g;
        assert Reaches(g, task, y);
        return Raised;
      }
      SearchMoves(g, task, seen, nextdeps, found.value);
      seen := seen + nextdeps;
      newdeps := found.value - seen;
    }
    SearchEnds(g, task, seen);
    IsReachMeans(g, task, seen);
    r := Ok(seen);
  }

  lemma IsReachMeans(g: Graph, task: string, seen: set<string>)
    requires IsReach(g, task, seen)
    ensures forall y :: y in seen <==> Reaches(g, task, y)
  {
  }

  lemma SearchingMeans(g: Graph, task: string, seen: set<string>, newdeps: set<string>)
    requires Searching(g, task, seen, newdeps)
    ensures seen !! newdeps && seen + newdeps <= Targets(g) && forall y <- newdeps :: Reaches(g, task, y)
  {
  }

  function ValueText(v: Option<string>): string { if v.None? then "" else v.value }

  /** Each name with its value, if it has one. */
  function NamesAndValues(lookupcache: map<string, Option<string>>, names: seq<string>): string
    requires forall x <- names :: x in lookupcache
  {
    if |names| == 0 then ""
    else
      NamesAndValues(lookupcache, names[..|names| - 1]) + names[|names| - 1] +
      ValueText(lookupcache[names[|names| - 1]])
  }

  /** The text that the base hash of a task is taken of. */
  function BaseText(lookupcache: map<string, Option<string>>, task: string, deps: set<string>): string
    requires task in lookupcache && forall x <- deps :: x in lookupcache
  {
    ValueText(lookupcache[task]) + NamesAndValues(lookupcache, Sorted(deps))
  }

  lemma OneMoreName(lookupcache: map<string, Option<string>>, names: seq<string>, i: nat, front: string)
    requires i < |names| && forall x <- names[..i + 1] :: x in lookupcache
    ensures (forall x <- names[..i] :: x in lookupcache) && names[i] in lookupcache
    ensures front + NamesAndValues(lookupcache, names[..i + 1])
         == front + NamesAndValues(lookupcache, names[..i]) + names[i] + ValueText(lookupcache[names[i]])
  {
    hide ValueText;
    assert names[..i + 1][..i] == names[..i] && names[i] in names[..i + 1];
    assert forall x <- names[..i] :: x in names[..i + 1];
    Assoc4(front, NamesAndValues(lookupcache, names[..i]), names[i], ValueText(lookupcache[names[i]]));
  }

  lemma NoNames(lookupcache: map<string, Option<string>>, front: string)
    ensures front + NamesAndValues(lookupcache, []) == front
  {
  }

  lemma Assoc4(a: string, b: string, c: string, d: string)
    ensures a + (b + c + d) == a + b + c + d
  {
  }

  /** The list of pieces, joined. */
  method BaseData(lookupcache: map<string, Option<string>>, task: string, seen: set<string>) returns (r: Result<string>)
    requires task in lookupcache
    ensures r.Ok? <==> seen <= lookupcache.Keys
    ensures r.Ok? ==> r.value == BaseText(lookupcache, task, seen)
  {
    hide NamesAndValues;
    var data := if lookupcache[task].None? then "" else lookupcache[task].value;
    ghost var front := data;
    NoNames(lookupcache, data);
    var alldeps := Sorted(seen);
    for i := 0 to |alldeps|
      invariant forall j :: 0 <= j < i ==> alldeps[j] in lookupcache
      invariant data == front + NamesAndValues(lookupcache, alldeps[..i])
    {
      var dep := alldeps[i];
      if dep !in lookupcache {
        assert dep in alldeps;
        return Raised;
      }
      data := data + dep;
      var value := lookupcache[dep];
      if value.Some? {
        data := data + value.value;
      }
      OneMoreName(lookupcache, alldeps, i, front);
    }
    assert alldeps[..|alldeps|] == alldeps;
    r := Ok(data);
  }

  function Tid(fn: string, task: string): string { fn + ":" + task }

  lemma TidInjective(fn: string, a: string, b: string)
    requires Tid(fn, a) == Tid(fn, b)
    ensures a == b
  {
    assert Tid(fn, a)[|fn| + 1..] == a && Tid(fn, b)[|fn| + 1..] == b;
  }

  /** What is promised for one task. */
  ghost predicate Hashed(
      g: Graph, lookupcache: map<string, Option<string>>, fn: string, sha: string -> string, task: string,
      taskdeps: map<string, set<string>>, basehash: map<string, string>)
  {
    && Complete(g, lookupcache, task)
    && task in taskdeps && IsReach(g, task, taskdeps[task])
    && Tid(fn, task) in basehash && basehash[Tid(fn, task)] == sha(BaseText(lookupcache, task, taskdeps[task]))
  }

  /**
   `generate_dependency_hash`: the dependencies of a task are what it reaches in one or more steps, and
   KeyError is raised exactly when a name that some task needs is missing.
   */
  method GenerateDependencyHash(
      tasklist: seq<string>, gendeps: Graph, lookupcache: map<string, Option<string>>,
      fn: string, sha: string -> string)
    returns (r: Result<(map<string, set<string>>, map<string, string>)>)
    ensures r.Ok? <==> forall task <- tasklist :: Complete(gendeps, lookupcache, task)
    ensures r.Ok? ==> forall task <- tasklist :: Hashed(gendeps, lookupcache, fn, sha, task, r.value.0, r.value.1)
  {
    hide Complete, Reaches, IsReach, BaseText, Hashed;
    var taskdeps: map<string, set<string>>, basehash: map<string, string> := map[], map[];
    for i := 0 to |tasklist|
      invariant forall j :: 0 <= j < i ==> Hashed(gendeps, lookupcache, fn, sha, tasklist[j], taskdeps, basehash)
    {
      var task := tasklist[i];
      var h := HashTask(gendeps, lookupcache, task);
      if h.Raised? {
        return Raised;
      }
      ghost var was := (taskdeps, basehash);
      var (seen, data) := h.value;
      basehash := basehash[Tid(fn, task) := sha(data)];
      taskdeps := taskdeps[task := seen];
      forall j | 0 <= j <= i
        ensures Hashed(gendeps, lookupcache, fn, sha, tasklist[j], taskdeps, basehash)
      {
        OneMoreHashed(gendeps, lookupcache, fn, sha, tasklist[j], was.0, was.1, task, seen);
      }
    }
    forall task <- tasklist ensures Complete(gendeps, lookupcache, task) {
      HashedIsComplete(gendeps, lookupcache, fn, sha, task, taskdeps, basehash);
    }
    r := Ok((taskdeps, basehash));
  }

  method HashTask(g: Graph, lookupcache: map<string, Option<string>>, task: string)
    returns (r: Result<(set<string>, string)>)
    ensures r.Ok? <==> Complete(g, lookupcache, task)
    ensures r.Ok? ==> IsReach(g, task, r.value.0) && task in lookupcache && r.value.0 <= lookupcache.Keys
    ensures r.Ok? ==> r.value.1 == BaseText(lookupcache, task, r.value.0)
  {
    hide Reaches, BaseText;
    if task !in lookupcache {
      return Raised;
    }
    var seen := Closure(g, task);
    if seen.Raised? {
      return Raised;
    }
    var data := BaseData(lookupcache, task, seen.value);
    if data.Raised? {
      var y :| y in seen.value && y !in lookupcache;
      return Raised;
    }
    r := Ok((seen.value, data.value));
  }

  lemma OneMoreHashed(
      g: Graph, lookupcache: map<string, Option<string>>, fn: string, sha: string -> string, t: string,
      taskdeps: map<string, set<string>>, basehash: map<string, string>, task: string, seen: set<string>)
    requires Hashed(g, lookupcache, fn, sha, t, taskdeps, basehash) || t == task
    requires Complete(g, lookupcache, task) && IsReach(g, task, seen) && seen <= lookupcache.Keys
    ensures Hashed(g, lookupcache, fn, sha, t, taskdeps[task := seen],
                   basehash[Tid(fn, task) := sha(BaseText(lookupcache, task, seen))])
  {
    hide BaseText, Reaches;
    if t != task && Tid(fn, t) == Tid(fn, task) { TidInjective(fn, t, task); }
  }

  lemma HashedIsComplete(
      g: Graph, lookupcache: map<string, Option<string>>, fn: string, sha: string -> string, t: string,
      taskdeps: map<string, set<string>>, basehash: map<string, string>)
    requires Hashed(g, lookupcache, fn, sha, t, taskdeps, basehash)
    ensures Complete(g, lookupcache, t)
  {
  }

  // ----- generate_dependencies -----

  /** Every name is in the map for a task, or as a dependency of one. */
  ghost predicate Needed(g: Graph, tasks: seq<string>, x: string) {
    x in tasks || exists t <- tasks :: Reaches(g, t, x)
  }

  ghost predicate IsBuilt(build: string -> Built, deps: Graph, values: map<string, Option<string>>) {
    deps.Keys == values.Keys && forall x <- deps.Keys :: build(x) == Built(deps[x], values[x])
  }

  /** The maps while a task is being worked on: only names of `waiting` may still be missing. */
  ghost predicate Growing(
      build: string -> Built, universe: set<string>, tasks: seq<string>, deps: Graph,
      values: map<string, Option<string>>, waiting: set<string>)
  {
    && IsBuilt(build, deps, values)
    && deps.Keys + waiting <= universe
    && (forall x <- deps.Keys :: deps[x] <= deps.Keys + waiting)
    && (forall x <- deps.Keys + waiting :: Needed(deps, tasks, x))
  }

  lemma NeededGrows(g: Graph, h: Graph, tasks: seq<string>, more: seq<string>, x: string)
    requires Needed(g, tasks, x) && (forall z <- g.Keys :: z in h && h[z] == g[z]) && tasks <= more
    ensures Needed(h, more, x)
  {
    if x !in tasks {
      var t :| t in tasks && Reaches(g, t, x);
      var n: nat :| ReachIn(g, t, x, n);
      ReachGrows(g, h, t, x, n);
      assert Reaches(h, t, x) && t in more;
    }
  }

  lemma NeededNext(g: Graph, tasks: seq<string>, x: string, y: string)
    requires Needed(g, tasks, x) && y in Succ(g, x)
    ensures Needed(g, tasks, y)
  {
    if x in tasks {
      ReachOne(g, x, y);
    } else {
      var t :| t in tasks && Reaches(g, t, x);
      ReachMore(g, t, x, y);
    }
  }

  /** One name is built, or was before, and what it depends on has to be looked at. */
  lemma GrowsByOne(
      build: string -> Built, universe: set<string>, tasks: seq<string>, deps: Graph,
      values: map<string, Option<string>>, waiting: set<string>, dep: string)
    requires Growing(build, universe, tasks, deps, values, waiting) && dep in waiting
    requires forall x <- universe :: build(x).deps <= universe
    ensures var deps', values' := deps[dep := build(dep).deps], values[dep := build(dep).value];
            Growing(build, universe, tasks, deps', values', waiting - {dep} + deps'[dep])
  {
    hide Needed;
    var deps', values' := deps[dep := build(dep).deps], values[dep := build(dep).value];
    var waiting' := waiting - {dep} + deps'[dep];
    forall x <- deps'.Keys + waiting' ensures Needed(deps', tasks, x) {
      if x in deps.Keys + waiting {
        NeededGrows(deps, deps', tasks, tasks, x);
      } else {
        NeededGrows(deps, deps', tasks, tasks, dep);
        NeededNext(deps', tasks, dep, x);
      }
    }
  }

  /** Names that are in the map already may be waited for or not. */
  lemma Rewait(
      build: string -> Built, universe: set<string>, tasks: seq<string>, deps: Graph,
      values: map<string, Option<string>>, was: set<string>, now: set<string>)
    requires Growing(build, universe, tasks, deps, values, was)
    requires was <= now + deps.Keys && now <= was + deps.Keys
    ensures Growing(build, universe, tasks, deps, values, now)
  {
    hide Needed;
  }

  lemma NextTask(
      build: string -> Built, universe: set<string>, tasks: seq<string>, deps: Graph,
      values: map<string, Option<string>>, i: nat)
    requires i < |tasks| && tasks[i] in universe && Growing(build, universe, tasks[..i], deps, values, {})
    ensures Growing(build, universe, tasks[..i + 1], deps, values, {tasks[i]})
  {
    hide Reaches;
    assert tasks[i] in tasks[..i + 1];
    forall x <- deps.Keys ensures Needed(deps, tasks[..i + 1], x) {
      NeededGrows(deps, deps, tasks[..i], tasks[..i + 1], x);
    }
  }

  /** `for dep in nextdeps`: build what is missing and collect what it all depends on. */
  method BuildAll(
      build: string -> Built, ghost universe: set<string>, ghost tasks: seq<string>, deps0: Graph,
      values0: map<string, Option<string>>, nextdeps: set<string>)
    returns (deps: Graph, values: map<string, Option<string>>, newdeps: set<string>)
    requires Growing(build, universe, tasks, deps0, values0, nextdeps)
    requires forall x <- universe :: build(x).deps <= universe
    ensures Growing(build, universe, tasks, deps, values, newdeps)
    ensures deps0.Keys <= deps.Keys && nextdeps <= deps.Keys
  {
    hide Growing;
    deps, values, newdeps := deps0, values0, {};
    var todo := nextdeps;
    assert todo + newdeps == nextdeps;
    while todo != {}
      invariant todo <= nextdeps && nextdeps - todo <= deps.Keys && deps0.Keys <= deps.Keys
      invariant Growing(build, universe, tasks, deps, values, todo + newdeps)
      decreases |todo|
    {
      var dep :| dep in todo;
      ghost var waiting := todo + newdeps;
      GrowingMeans(build, universe, tasks, deps, values, waiting);
      if dep !in deps {
        GrowsByOne(build, universe, tasks, deps, values, waiting, dep);
        deps, values := deps[dep := build(dep).deps], values[dep := build(dep).value];
        waiting := waiting - {dep} + deps[dep];
      }
      newdeps := newdeps + deps[dep];
      todo := todo - {dep};
      Rewait(build, universe, tasks, deps, values, waiting, todo + newdeps);
    }
    assert todo + newdeps == newdeps;
  }

  lemma GrowingMeans(
      build: string -> Built, universe: set<string>, tasks: seq<string>, deps: Graph,
      values: map<string, Option<string>>, waiting: set<string>)
    requires Growing(build, universe, tasks, deps, values, waiting)
    ensures waiting <= universe && forall x <- deps.Keys :: deps[x] <= deps.Keys + waiting
  {
  }

  /**
   `generate_dependencies`: the maps hold what was built, for exactly the tasks and what they reach, and
   point nowhere else. Names come from a finite `universe`, and cycles do no harm.
   */
  method GenerateDependencies(tasklist: seq<string>, build: string -> Built, ghost universe: set<string>)
    returns (deps: Graph, values: map<string, Option<string>>)
    requires forall task <- tasklist :: task in universe
    requires forall x <- universe :: build(x).deps <= universe
    ensures IsBuilt(build, deps, values) && Closed(deps)
    ensures forall x :: x in deps <==> Needed(deps, tasklist, x)
  {
    hide Growing, Needed;
    deps, values := map[], map[];
    NothingGrown(build, universe, tasklist);
    for i := 0 to |tasklist|
      invariant Growing(build, universe, tasklist[..i], deps, values, {})
      invariant forall j :: 0 <= j < i ==> tasklist[j] in deps
    {
      var task := tasklist[i];
      NextTask(build, universe, tasklist, deps, values, i);
      GrowsByOne(build, universe, tasklist[..i + 1], deps, values, {task}, task);
      deps, values := deps[task := build(task).deps], values[task := build(task).value];
      var newdeps, seen := deps[task], {};
      assert {task} - {task} + deps[task] == newdeps;
      while newdeps != {}
        invariant Growing(build, universe, tasklist[..i + 1], deps, values, newdeps)
        invariant seen <= deps.Keys && seen <= universe && seen !! newdeps
        invariant forall j :: 0 <= j <= i ==> tasklist[j] in deps
        decreases universe - seen
      {
        GrowingMeans(build, universe, tasklist[..i + 1], deps, values, newdeps);
        var nextdeps := newdeps;
        seen := seen + nextdeps;
        deps, values, newdeps := BuildAll(build, universe, tasklist[..i + 1], deps, values, nextdeps);
        Rewait(build, universe, tasklist[..i + 1], deps, values, newdeps, newdeps - seen);
        newdeps := newdeps - seen;
      }
    }
    assert tasklist[..|tasklist|] == tasklist;
    AllGrown(build, universe, tasklist, deps, values);
  }

  lemma NothingGrown(build: string -> Built, universe: set<string>, tasks: seq<string>)
    ensures Growing(build, universe, tasks[..0], map[], map[], {})
  {
  }

  lemma AllGrown(
      build: string -> Built, universe: set<string>, tasks: seq<string>, deps: Graph,
      values: map<string, Option<string>>)
    requires Growing(build, universe, tasks, deps, values, {}) && forall j :: 0 <= j < |tasks| ==> tasks[j] in deps
    ensures IsBuilt(build, deps, values) && Closed(deps)
    ensures forall x :: x in deps <==> Needed(deps, tasks, x)
  {
    forall x | Needed(deps, tasks, x) ensures x in deps {
      if x !in tasks {
        var t :| t in tasks && Reaches(deps, t, x);
        ClosedReach(deps, t, x);
      }
    }
  }

  lemma ClosedReach(g: Graph, x: string, y: string)
    requires Closed(g) && Reaches(g, x, y)
    ensures y in g
  {
    var n: nat :| ReachIn(g, x, y, n);
    ReachStays(g, x, y, n, g.Keys);
  }

  /** The maps that `generate_dependencies` gives never make `generate_dependency_hash` miss a key. */
  lemma BuiltIsComplete(tasks: seq<string>, build: string -> Built, deps: Graph, values: map<string, Option<string>>,
      task: string)
    requires IsBuilt(build, deps, values) && Closed(deps) && task in tasks
    requires forall x :: x in deps <==> Needed(deps, tasks, x)
    ensures Complete(deps, values, task)
  {
    hide Reaches;
    assert Needed(deps, tasks, task);
    forall y | Reaches(deps, task, y) ensures y in deps { ClosedReach(deps, task, y); }
  }
}
