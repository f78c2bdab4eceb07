/** The tasks of a recipe that lie between two others: a depth-first search with one shared chain. */
module TasksBetween {

  /** `tasks` in the order of the search, and the `deps` flag of each. */
  datatype Graph = Graph(tasks: seq<string>, deps: map<string, seq<string>>)

  predicate IsGraph(g: Graph) { forall t <- g.tasks :: t in g.deps }

  /** `b` is another task that depends on `a`. */
  predicate Edge(g: Graph, a: string, b: string)
    requires IsGraph(g)
  {
    b in g.tasks && b != a && a in g.deps[b]
  }

  /** Each task depends on the one before it. */
  predicate Walk(g: Graph, p: seq<string>)
    requires IsGraph(g)
  {
    |p| > 0 && forall i :: 0 <= i < |p| - 1 ==> Edge(g, p[i], p[i + 1])
  }

  predicate Distinct(p: seq<string>) { forall i, j :: 0 <= i < j < |p| ==> p[i] != p[j] }

  /** A walk that meets no task twice, and the end only as its last. */
  predicate Path(g: Graph, end: string, p: seq<string>)
    requires IsGraph(g)
  {
    Walk(g, p) && Distinct(p) && end !in p[..|p| - 1]
  }

  /** A path that steps back onto itself before it meets the end. */
  predicate Lasso(g: Graph, end: string, p: seq<string>)
    requires IsGraph(g)
  {
    |p| > 1 && Walk(g, p) && Distinct(p[..|p| - 1]) && end !in p[..|p| - 1] && p[|p| - 1] in p[..|p| - 1]
  }

  ghost predicate LassoFrom(g: Graph, end: string, c: seq<string>)
    requires IsGraph(g)
  {
    exists p :: c <= p && Lasso(g, end, p)
  }

  /** `x` is on a path that begins with `c` and stops at the end. */
  ghost predicate Between(g: Graph, end: string, c: seq<string>, x: string)
    requires IsGraph(g)
  {
    exists p :: c <= p && Path(g, end, p) && p[|p| - 1] == end && x in p
  }

  /** It is on one that goes on to `o` next. */
  ghost predicate Via(g: Graph, end: string, c: seq<string>, o: string, x: string)
    requires IsGraph(g) && |c| > 0
  {
    Edge(g, c[|c| - 1], o) && Between(g, end, c + [o], x)
  }

  ghost predicate ViaOne(g: Graph, end: string, c: seq<string>, os: seq<string>, x: string)
    requires IsGraph(g) && |c| > 0
  {
    exists o <- os :: Via(g, end, c, o, x)
  }

  ghost predicate LassoVia(g: Graph, end: string, c: seq<string>, o: string)
    requires IsGraph(g) && |c| > 0
  {
    Edge(g, c[|c| - 1], o) && LassoFrom(g, end, c + [o])
  }

  /** There is a task besides the end, without which the search records nothing. */
  predicate HasOther(g: Graph, end: string) { exists t <- g.tasks :: t != end }

  // ----- what follows a chain -----

  lemma {:induction false} DistinctFits(p: seq<string>, nodes: set<string>)
    requires Distinct(p) && forall t <- p :: t in nodes
    ensures |p| <= |nodes|
    decreases |p|
  {
    if |p| > 0 {
      var q, t := p[..|p| - 1], p[|p| - 1];
      assert forall x <- q :: x in nodes - {t};
      DistinctFits(q, nodes - {t});
    }
  }

  lemma PathPrefix(g: Graph, end: string, p: seq<string>, k: nat)
    requires IsGraph(g) && 0 < k < |p| && (Path(g, end, p) || Lasso(g, end, p))
    ensures Path(g, end, p[..k]) && end !in p[..k] && Edge(g, p[k - 1], p[k])
  {
    assert p[..|p| - 1][..k] == p[..k];
    assert forall t <- p[..k] :: t in p[..|p| - 1];
  }

  /** At the end a chain has no continuation but itself. */
  lemma StopsAtEnd(g: Graph, end: string, c: seq<string>)
    requires IsGraph(g) && Path(g, end, c) && c[|c| - 1] == end
    ensures !LassoFrom(g, end, c)
    ensures forall x :: Between(g, end, c, x) <==> x in c
  {
    forall p | c <= p && (Path(g, end, p) || Lasso(g, end, p))
      ensures p == c
    {
    }
    assert c <= c;
  }

  /** Elsewhere it goes on to one of the tasks that depend on its last. */
  lemma GoesOn(g: Graph, end: string, c: seq<string>)
    requires IsGraph(g) && Path(g, end, c) && c[|c| - 1] != end
    ensures LassoFrom(g, end, c) <==> exists o :: LassoVia(g, end, c, o)
    ensures forall x :: Between(g, end, c, x) <==> exists o :: Via(g, end, c, o, x)
  {
    hide Lasso, Edge, Distinct;
    if LassoFrom(g, end, c) {
      var p :| c <= p && Lasso(g, end, p);
      Beyond(g, end, c, p);
      assert LassoVia(g, end, c, p[|c|]);
    }
    if o :| LassoVia(g, end, c, o) {
      var p :| c + [o] <= p && Lasso(g, end, p);
      assert c <= p;
    }
    forall x
      ensures Between(g, end, c, x) <==> exists o :: Via(g, end, c, o, x)
    {
      if Between(g, end, c, x) {
        var p :| c <= p && Path(g, end, p) && p[|p| - 1] == end && x in p;
        Beyond(g, end, c, p);
        assert Via(g, end, c, p[|c|], x);
      }
      if o :| Via(g, end, c, o, x) {
        var p :| c + [o] <= p && Path(g, end, p) && p[|p| - 1] == end && x in p;
        assert c <= p;
      }
    }
  }

  lemma Beyond(g: Graph, end: string, c: seq<string>, p: seq<string>)
    requires IsGraph(g) && Path(g, end, c) && c[|c| - 1] != end && c <= p
    requires Lasso(g, end, p) || (Path(g, end, p) && p[|p| - 1] == end)
    ensures |p| > |c| && Edge(g, c[|c| - 1], p[|c|]) && c + [p[|c|]] <= p
  {
    if |p| > |c| { PathPrefix(g, end, p, |c|); }
  }

  /** A task that is on the chain already closes a lasso; any other makes a longer path. */
  lemma OneStep(g: Graph, end: string, c: seq<string>, o: string)
    requires IsGraph(g) && Path(g, end, c) && c[|c| - 1] != end && Edge(g, c[|c| - 1], o)
    ensures o in c ==> LassoFrom(g, end, c + [o])
    ensures o !in c ==> Path(g, end, c + [o])
  {
    var p := c + [o];
    assert p[..|p| - 1] == c;
    assert end !in c by { assert forall t <- c :: t in c[..|c| - 1] || t == c[|c| - 1]; }
    if o in c {
      assert p <= p && Lasso(g, end, p);
    }
  }

  // ----- the search -----

  class Search {
    const g: Graph
    const end: string
    const start: string
    var chain: seq<string>
    var outtasks: seq<string>

    constructor (g: Graph, start: string, end: string)
      ensures this.g == g && this.start == start && this.end == end && chain == [] && outtasks == []
    {
      this.g, this.start, this.end, chain, outtasks := g, start, end, [], [];
    }

    ghost function Nodes(): set<string> { (set t | t in g.tasks) + {start} }

    /** The chain and the next task are a walk that has not met the end. */
    ghost predicate Ready(task: string)
      reads this
    {
      && IsGraph(g) && Distinct(outtasks)
      && task in Nodes() && (forall t <- chain :: t in Nodes())
      && if chain == [] then task == start
         else Path(g, end, chain) && chain[|chain| - 1] != end && Edge(g, chain[|chain| - 1], task)
    }

    /** What has been recorded: what was, and what `more` tells. */
    ghost predicate Records(was: seq<string>, more: iset<string>)
      reads this
    {
      Distinct(outtasks) && forall x :: x in outtasks <==> x in was || x in more
    }

    ghost function Found(c: seq<string>): iset<string>
      requires IsGraph(g)
    {
      iset x | HasOther(g, end) && Between(g, end, c, x)
    }

    /** `for ctask in chain` */
    method Record()
      requires Distinct(outtasks)
      modifies this`outtasks
      ensures Records(old(outtasks), iset t | t in chain)
    {
      for i := 0 to |chain|
        invariant Records(old(outtasks), iset t | t in chain[..i])
      {
        if chain[i] !in outtasks {
          outtasks := outtasks + [chain[i]];
        }
      }
    }

    /**
     `follow_chain`: it raises exactly when some continuation steps back onto itself; otherwise it
     restores the chain and records the tasks on every path that continues it to the end.
     */
    method FollowChain(task: string) returns (ok: bool)
      requires Ready(task)
      modifies this
      ensures ok <==> !(task in old(chain) || LassoFrom(g, end, old(chain) + [task]))
      ensures ok ==> chain == old(chain) && Records(old(outtasks), Found(old(chain) + [task]))
      decreases |Nodes()| - |chain|
    {
      hide LassoFrom, Between, Found, Sofar, NoLassoYet, Path, HasOther, Via;
      if task in chain {
        return false;
      }
      ghost var c := chain + [task];
      StartOrStep(task);
      chain := chain + [task];
      DistinctFits(c, Nodes());
      if task == end { StopsAtEnd(g, end, c); } else { GoesOn(g, end, c); }
      NoRounds(c);
      for i := 0 to |g.tasks|
        invariant chain == c
        invariant Records(old(outtasks), Sofar(c, i))
        invariant task != end ==> NoLassoYet(c, i)
      {
        var othertask := g.tasks[i];
        OneRound(c, i);
        if othertask == task {
          continue;
        }
        if task == end {
          Record();
        } else if task in g.deps[othertask] {
          OneStep(g, end, c, othertask);
          ok := FollowChain(othertask);
          if !ok {
            return;
          }
        }
      }
      AllRounds(c);
      chain := chain[..|chain| - 1];
      ok := true;
    }

    lemma StartOrStep(task: string)
      requires Ready(task) && task !in chain
      ensures Path(g, end, chain + [task])
    {
      if chain != [] {
        OneStep(g, end, chain, task);
      }
    }

    ghost predicate NoLassoYet(c: seq<string>, i: nat)
      requires IsGraph(g) && |c| > 0 && i <= |g.tasks|
    {
      forall o <- g.tasks[..i] :: !LassoVia(g, end, c, o)
    }

    /** What the first `i` rounds of the loop can have recorded. */
    ghost function Sofar(c: seq<string>, i: nat): iset<string>
      requires IsGraph(g) && |c| > 0 && i <= |g.tasks|
    {
      if c[|c| - 1] == end then iset x | x in c && exists o <- g.tasks[..i] :: o != end
      else iset x | HasOther(g, end) && ViaOne(g, end, c, g.tasks[..i], x)
    }

    lemma NoRounds(c: seq<string>)
      requires IsGraph(g) && |c| > 0
      ensures Sofar(c, 0) == iset{} && NoLassoYet(c, 0)
    {
    }

    lemma OneRound(c: seq<string>, i: nat)
      requires IsGraph(g) && Path(g, end, c) && i < |g.tasks|
      ensures var (task, o) := (c[|c| - 1], g.tasks[i]);
              && (task == end && o != end ==> Sofar(c, i + 1) == iset x | x in c)
              && (task == end && o == end ==> Sofar(c, i + 1) == Sofar(c, i))
              && (task != end && Edge(g, task, o) ==> Sofar(c, i + 1) == Sofar(c, i) + Found(c + [o]))
              && (task != end && !Edge(g, task, o) ==> Sofar(c, i + 1) == Sofar(c, i))
              && (NoLassoYet(c, i + 1) <==> NoLassoYet(c, i) && !LassoVia(g, end, c, o))
      ensures Sofar(c, i) <= Sofar(c, i + 1)
    {
      hide Path, LassoFrom, Between;
      assert g.tasks[..i + 1] == g.tasks[..i] + [g.tasks[i]];
      assert g.tasks[i] in g.tasks[..i + 1] && forall o <- g.tasks[..i] :: o in g.tasks[..i + 1];
    }

    lemma AllRounds(c: seq<string>)
      requires IsGraph(g) && Path(g, end, c)
      ensures Sofar(c, |g.tasks|) == Found(c)
      ensures c[|c| - 1] != end && NoLassoYet(c, |g.tasks|) ==> !LassoFrom(g, end, c)
    {
      hide LassoFrom, Between, Distinct;
      assert g.tasks[..|g.tasks|] == g.tasks;
      if c[|c| - 1] == end { StopsAtEnd(g, end, c); } else { GoesOn(g, end, c); }
    }
  }

  // ----- acyclic graphs -----

  /** No walk of more than one task comes back to where it began. */
  ghost predicate Acyclic(g: Graph)
    requires IsGraph(g)
  {
    forall p :: Walk(g, p) && |p| > 1 ==> p[0] != p[|p| - 1]
  }

  /** `x` is on some dependency path from `start` to `end`, whatever its shape. */
  ghost predicate OnWalk(g: Graph, start: string, end: string, x: string)
    requires IsGraph(g)
  {
    exists p :: Walk(g, p) && p[0] == start && p[|p| - 1] == end && x in p
  }

  lemma WalksAreDistinct(g: Graph, p: seq<string>)
    requires IsGraph(g) && Acyclic(g) && Walk(g, p)
    ensures Distinct(p)
  {
    forall i, j | 0 <= i < j < |p|
      ensures p[i] != p[j]
    {
      var q := p[i..j + 1];
      assert Walk(g, q) && q[0] == p[i] && q[|q| - 1] == p[j];
    }
  }

  /** On an acyclic graph the search cannot fail, and its paths are all the walks. */
  lemma AcyclicPaths(g: Graph, start: string, end: string)
    requires IsGraph(g) && Acyclic(g)
    ensures !LassoFrom(g, end, [start])
    ensures forall x :: Between(g, end, [start], x) <==> OnWalk(g, start, end, x)
  {
    hide Acyclic, Edge;
    forall p | Walk(g, p) && p[|p| - 1] == end
      ensures Path(g, end, p)
    {
      WalksAreDistinct(g, p);
      assert end !in p[..|p| - 1];
    }
    forall p | Lasso(g, end, p)
      ensures false
    {
      WalksAreDistinct(g, p);
    }
    assert forall p :: Walk(g, p) ==> (p[0] == start <==> [start] <= p);
  }

  /**
   `tasksbetween`: it ends on every graph, and raises exactly when some chain from the start steps back
   onto itself before the end. On an acyclic graph with a task besides the end it returns, once each, the
   tasks on a dependency path from start to end.
   */
  method TasksBetween(g: Graph, start: string, end: string) returns (ok: bool, outtasks: seq<string>)
    requires IsGraph(g)
    ensures ok <==> !LassoFrom(g, end, [start])
    ensures ok ==> Distinct(outtasks)
    ensures ok ==> forall x :: x in outtasks <==> HasOther(g, end) && Between(g, end, [start], x)
    ensures Acyclic(g) ==> ok && forall x :: x in outtasks <==> HasOther(g, end) && OnWalk(g, start, end, x)
  {
    hide LassoFrom, Between, OnWalk, Acyclic, HasOther;
    var search := new Search(g, start, end);
    ok := search.FollowChain(start);
    outtasks := search.outtasks;
    assert [] + [start] == [start];
    if Acyclic(g) { AcyclicPaths(g, start, end); }
  }

  /** Two tasks are enough for one of them not to be the end. */
  lemma TwoTasks(g: Graph, end: string)
    requires |g.tasks| >= 2 && Distinct(g.tasks)
    ensures HasOther(g, end)
  {
    assert g.tasks[0] in g.tasks && g.tasks[1] in g.tasks;
  }
}
