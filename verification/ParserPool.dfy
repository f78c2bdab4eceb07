/**
 The parser pool: worker processes that share one result queue, and the generator that reads it.
 Every process is a sequence of small steps; a run interleaves them in any order.
 */
module ParserPool {

  type Job = string

  /** A parse result; `failed` when the parse ended in an exception. */
  datatype Outcome = Outcome(job: Job, failed: bool)

  /** Where a worker is in `Parser.realrun`. */
  datatype WorkerPc = Top | Putting | Closing | Exited | Killed

  /** A worker with its own copy of `jobs` and the buffer of its queue feeder thread. */
  datatype Worker = Worker(pc: WorkerPc, jobs: seq<Job>, havejobs: bool, pending: seq<Outcome>, buffer: seq<Outcome>)
  {
    predicate Alive() { pc != Exited && pc != Killed }
  }

  /** Where the generator is in `parse_generator`; `Aborted` when the consumer met a failed parse. */
  datatype MainPc = AtLoop | Reaping(todo: seq<nat>) | AtCheck | AtGet | Ended | RaisedError | Aborted

  datatype State = State(
    toparse: nat,
    workers: seq<Worker>,
    queue: seq<Outcome>,
    main: MainPc,
    processes: seq<nat>,
    empty: bool,
    parsed: nat,
    consumed: seq<Outcome>,
    lost: multiset<Job>)

  // ----- start -----

  /** `lst[i::n]` */
  function Stride(lst: seq<Job>, i: nat, n: nat): seq<Job>
    requires n > 0
    decreases |lst| - i
  {
    if i >= |lst| then [] else [lst[i]] + Stride(lst, i + n, n)
  }

  /** `chunkify` */
  function Chunkify(lst: seq<Job>, n: nat): (chunks: seq<seq<Job>>)
    ensures |chunks| == n
  {
    seq(n, i requires 0 <= i < n => Stride(lst, i, n))
  }

  function NewWorker(jobs: seq<Job>): Worker { Worker(Top, jobs, true, [], []) }

  /** The state when `CookerParser.start` returns, with `threads` workers. */
  function Initial(willparse: seq<Job>, threads: nat): State {
    var chunks := Chunkify(willparse, threads);
    State(|willparse|, seq(threads, i requires 0 <= i < threads => NewWorker(chunks[i])), [],
      AtLoop, seq(threads, i => i), false, 0, [], multiset{})
  }

  // ----- worker steps -----

  /** From the loop test to the end of the parse of one job. */
  predicate TakeJob(w: Worker, w': Worker, failed: bool) {
    && w.pc == Top && (w.havejobs || w.pending != [])
    && if w.jobs != [] then
         var job := w.jobs[|w.jobs| - 1];
         w' == w.(pc := Putting, jobs := w.jobs[..|w.jobs| - 1], pending := w.pending + [Outcome(job, failed)])
       else w' == w.(pc := Putting, havejobs := false)
  }

  /** `results.put`: the last pending result goes to the feeder, or the queue is full and it stays. */
  predicate PutResult(w: Worker, w': Worker, full: bool) {
    && w.pc == Putting
    && if w.pending != [] && !full then
         w' == w.(pc := Top, pending := w.pending[..|w.pending| - 1], buffer := w.buffer + [w.pending[|w.pending| - 1]])
       else w' == w.(pc := Top)
  }

  /** The loop ends; the queue is closed. */
  predicate CloseQueue(w: Worker, w': Worker) {
    w.pc == Top && !w.havejobs && w.pending == [] && w' == w.(pc := Closing)
  }

  /** `join_thread` has returned: the feeder has written everything. */
  predicate Exit(w: Worker, w': Worker) {
    w.pc == Closing && w.buffer == [] && w' == w.(pc := Exited)
  }

  predicate WorkerStep(w: Worker, w': Worker) {
    || TakeJob(w, w', true) || TakeJob(w, w', false)
    || PutResult(w, w', true) || PutResult(w, w', false)
    || CloseQueue(w, w') || Exit(w, w')
  }

  function WorkerJobs(w: Worker): multiset<Job> {
    multiset(w.jobs) + Names(w.pending) + Names(w.buffer)
  }

  function Names(rs: seq<Outcome>): multiset<Job> {
    if |rs| == 0 then multiset{} else Names(rs[..|rs| - 1]) + multiset{rs[|rs| - 1].job}
  }

  // ----- the steps of a run -----

  datatype Step =
    | WorkerMoves(i: nat)
    | FeederWrites(i: nat)
    | WorkerKilled(i: nat)
    | LoopTest
    | ReapOne
    | CheckParsed
    | GetResult
    | GetTimeout

  ghost predicate Takes(s: State, step: Step, t: State) {
    match step
    case WorkerMoves(i) =>
      i < |s.workers| && exists w' :: WorkerStep(s.workers[i], w') && t == s.(workers := s.workers[i := w'])
    case FeederWrites(i) =>
      && i < |s.workers| && s.workers[i].Alive() && s.workers[i].buffer != []
      && var w := s.workers[i];
         t == s.(workers := s.workers[i := w.(buffer := w.buffer[1..])], queue := s.queue + [w.buffer[0]])
    case WorkerKilled(i) =>
      && i < |s.workers| && s.workers[i].Alive()
      && var w := s.workers[i];
         t == s.(workers := s.workers[i := Worker(Killed, [], false, [], [])], lost := s.lost + WorkerJobs(w))
    case LoopTest =>
      && s.main == AtLoop
      && t == s.(main :=
           if s.processes != [] || !s.empty then Reaping(s.processes)
           else if s.parsed >= s.toparse then Ended else RaisedError)
    case ReapOne =>
      && s.main.Reaping?
      && if s.main.todo == [] then t == s.(main := AtCheck)
         else
           var p := s.main.todo[0];
           && p < |s.workers|
           && t == s.(main := Reaping(s.main.todo[1..]),
                processes := if s.workers[p].Alive() then s.processes else Without(s.processes, p))
    case CheckParsed =>
      s.main == AtCheck && t == s.(main := if s.parsed >= s.toparse then Ended else AtGet)
    case GetResult =>
      && s.main == AtGet && s.queue != []
      && var r := s.queue[0];
         t == s.(queue := s.queue[1..], empty := false, consumed := s.consumed + [r],
                 main := if r.failed then Aborted else AtLoop, parsed := if r.failed then s.parsed else s.parsed + 1)
    case GetTimeout =>
      s.main == AtGet && s.queue == [] && t == s.(empty := true, main := AtLoop)
  }

  ghost predicate Distinct(ps: seq<nat>) {
    forall i, j :: 0 <= i < j < |ps| ==> ps[i] != ps[j]
  }

  /** `list.remove` of a process. */
  function Without(ps: seq<nat>, p: nat): (r: seq<nat>)
    ensures |r| <= |ps|
    ensures forall q :: q in r ==> q in ps
    ensures forall q :: q in ps && q != p ==> q in r
  {
    if |ps| == 0 then [] else if ps[0] == p then ps[1..] else [ps[0]] + Without(ps[1..], p)
  }

  lemma {:induction false} WithoutDistinct(ps: seq<nat>, p: nat)
    requires Distinct(ps)
    ensures Distinct(Without(ps, p)) && p !in Without(ps, p)
  {
    if |ps| > 0 && ps[0] != p {
      WithoutDistinct(ps[1..], p);
      assert ps[0] !in ps[1..];
    }
  }

  /** A finite run from `states[0]`. */
  ghost predicate Run(states: seq<State>, steps: seq<Step>) {
    |states| == |steps| + 1 && forall i :: 0 <= i < |steps| ==> Takes(states[i], steps[i], states[i + 1])
  }

  // ----- where each recipe is -----

  function InWorkers(ws: seq<Worker>): multiset<Job> {
    if |ws| == 0 then multiset{} else InWorkers(ws[..|ws| - 1]) + WorkerJobs(ws[|ws| - 1])
  }

  function Everything(s: State): multiset<Job> {
    InWorkers(s.workers) + Names(s.queue) + Names(s.consumed) + s.lost
  }

  lemma Regroup(x': multiset<Job>, a: multiset<Job>, x: multiset<Job>, b: multiset<Job>, l: multiset<Job>)
    requires x' + a == x + b
    ensures (x' + l) + a == (x + l) + b
  {
    forall j ensures ((x' + l) + a)[j] == ((x + l) + b)[j] { assert (x' + a)[j] == (x + b)[j]; }
  }

  /** Replacing a by b, which lacks d, takes d out of the whole. */
  lemma Balance(x': multiset<Job>, x: multiset<Job>, a: multiset<Job>, b: multiset<Job>, d: multiset<Job>)
    requires x' + a == x + b && a == b + d
    ensures x' + d == x
  {
    forall j ensures (x' + d)[j] == x[j] { assert (x' + a)[j] == (x + b)[j]; }
  }

  lemma {:induction false} InWorkersUpdate(ws: seq<Worker>, i: nat, w: Worker)
    requires i < |ws|
    ensures InWorkers(ws[i := w]) + WorkerJobs(ws[i]) == InWorkers(ws) + WorkerJobs(w)
  {
    hide WorkerJobs;
    var n := |ws| - 1;
    if i == n {
      assert ws[i := w][..n] == ws[..n];
    } else {
      assert ws[i := w][..n] == ws[..n][i := w];
      InWorkersUpdate(ws[..n], i, w);
      Regroup(InWorkers(ws[..n][i := w]), WorkerJobs(ws[i]), InWorkers(ws[..n]), WorkerJobs(w), WorkerJobs(ws[n]));
    }
  }

  lemma NamesAppend(rs: seq<Outcome>, r: Outcome)
    ensures Names(rs + [r]) == Names(rs) + multiset{r.job}
  {
    assert (rs + [r])[..|rs|] == rs;
  }

  lemma {:induction false} NamesHead(rs: seq<Outcome>)
    requires rs != []
    ensures Names(rs) == multiset{rs[0].job} + Names(rs[1..])
  {
    if |rs| > 1 {
      NamesHead(rs[..|rs| - 1]);
      assert rs[..|rs| - 1][1..] == rs[1..][..|rs| - 2];
    } else {
      assert rs[..0] == [] && rs[1..] == [];
    }
  }

  lemma Cancel(x: multiset<Job>, y: multiset<Job>, a: multiset<Job>)
    requires x + a == y + a
    ensures x == y
  {
    forall j ensures x[j] == y[j] { assert (x + a)[j] == (y + a)[j]; }
  }

  lemma TakeJobKeeps(w: Worker, w': Worker, failed: bool)
    requires TakeJob(w, w', failed)
    ensures WorkerJobs(w') == WorkerJobs(w)
  {
    hide Names;
    if w.jobs != [] {
      var n := |w.jobs| - 1;
      assert w.jobs == w.jobs[..n] + [w.jobs[n]];
      NamesAppend(w.pending, Outcome(w.jobs[n], failed));
    }
  }

  lemma PutResultKeeps(w: Worker, w': Worker, full: bool)
    requires PutResult(w, w', full)
    ensures WorkerJobs(w') == WorkerJobs(w)
  {
    hide Names;
    if w.pending != [] && !full {
      var n := |w.pending| - 1;
      assert w.pending == w.pending[..n] + [w.pending[n]];
      NamesAppend(w.pending[..n], w.pending[n]);
      NamesAppend(w.buffer, w.pending[n]);
    }
  }

  lemma WorkerStepKeeps(w: Worker, w': Worker)
    requires WorkerStep(w, w')
    ensures WorkerJobs(w') == WorkerJobs(w)
  {
    hide TakeJob, PutResult, Names;
    if failed :| TakeJob(w, w', failed) {
      TakeJobKeeps(w, w', failed);
    } else if full :| PutResult(w, w', full) {
      PutResultKeeps(w, w', full);
    }
  }

  lemma Moved(w: multiset<Job>, q: multiset<Job>, c: multiset<Job>, l: multiset<Job>, d: multiset<Job>)
    ensures w + (q + d) + c + l == (w + d) + q + c + l
    ensures w + q + c + (l + d) == (w + d) + q + c + l
    ensures w + q + (c + d) + l == w + (d + q) + c + l
  {
  }

  /** No step of any process loses or duplicates a recipe. */
  lemma StepKeepsEverything(s: State, step: Step, t: State)
    requires Takes(s, step, t)
    ensures Everything(t) == Everything(s)
  {
    hide WorkerStep, WorkerJobs, InWorkers, Names;
    match step
    case WorkerMoves(i) =>
      var w' :| WorkerStep(s.workers[i], w') && t == s.(workers := s.workers[i := w']);
      WorkerStepKeeps(s.workers[i], w');
      InWorkersUpdate(s.workers, i, w');
      Cancel(InWorkers(t.workers), InWorkers(s.workers), WorkerJobs(w'));
    case FeederWrites(i) =>
      var w := s.workers[i];
      FeederKeeps(w);
      var w' := w.(buffer := w.buffer[1..]);
      InWorkersUpdate(s.workers, i, w');
      Balance(InWorkers(t.workers), InWorkers(s.workers), WorkerJobs(w), WorkerJobs(w'), multiset{w.buffer[0].job});
      NamesAppend(s.queue, w.buffer[0]);
      Moved(InWorkers(t.workers), Names(s.queue), Names(s.consumed), s.lost, multiset{w.buffer[0].job});
    case WorkerKilled(i) =>
      var w, w' := s.workers[i], Worker(Killed, [], false, [], []);
      InWorkersUpdate(s.workers, i, w');
      NothingLeft(w');
      Balance(InWorkers(t.workers), InWorkers(s.workers), WorkerJobs(w), WorkerJobs(w'), WorkerJobs(w));
      Moved(InWorkers(t.workers), Names(s.queue), Names(s.consumed), s.lost, WorkerJobs(w));
    case GetResult =>
      NamesHead(s.queue);
      NamesAppend(s.consumed, s.queue[0]);
      Moved(InWorkers(s.workers), Names(s.queue[1..]), Names(s.consumed), s.lost, multiset{s.queue[0].job});
    case _ =>
  }

  lemma FeederKeeps(w: Worker)
    requires w.buffer != []
    ensures WorkerJobs(w) == WorkerJobs(w.(buffer := w.buffer[1..])) + multiset{w.buffer[0].job}
  {
    NamesHead(w.buffer);
  }

  lemma NothingLeft(w: Worker)
    requires w.jobs == [] && w.pending == [] && w.buffer == []
    ensures WorkerJobs(w) == multiset{}
  {
  }

  // ----- the chunks are a partition of the recipes -----

  /** Whether position m is on the stride that starts at i. */
  predicate Hits(i: nat, m: nat, n: nat)
    requires n > 0
    decreases m - i
  {
    i == m || (i < m && Hits(i + n, m, n))
  }

  function Residue(m: nat, n: nat): (r: nat)
    requires n > 0
    ensures r < n
  {
    if m < n then m else Residue(m - n, n)
  }

  lemma {:induction false} HitsShift(i: nat, m: nat, n: nat)
    requires n > 0
    ensures Hits(i + n, m + n, n) == Hits(i, m, n)
    decreases m - i
  {
    if i < m { HitsShift(i + n, m, n); }
  }

  /** Exactly one of the n strides passes through a position. */
  lemma {:induction false} HitsOnce(i: nat, m: nat, n: nat)
    requires i < n
    ensures Hits(i, m, n) <==> i == Residue(m, n)
    decreases m
  {
    if m >= n {
      HitsShift(i, m - n, n);
      HitsOnce(i, m - n, n);
    }
  }

  lemma {:induction false} StrideSnoc(lst: seq<Job>, x: Job, i: nat, n: nat)
    requires n > 0
    ensures Stride(lst + [x], i, n) == Stride(lst, i, n) + if Hits(i, |lst|, n) then [x] else []
    decreases |lst| - i
  {
    if i < |lst| {
      StrideSnoc(lst, x, i + n, n);
    }
  }

  function StridesUpTo(lst: seq<Job>, k: nat, n: nat): multiset<Job>
    requires n > 0
  {
    if k == 0 then multiset{} else StridesUpTo(lst, k - 1, n) + multiset(Stride(lst, k - 1, n))
  }

  function Once(x: Job, there: bool): multiset<Job> { if there then multiset{x} else multiset{} }

  lemma OneMore(a: multiset<Job>, b: seq<Job>, x: Job, before: bool, here: bool)
    requires !(before && here)
    ensures (a + Once(x, before)) + multiset(b + if here then [x] else []) ==
      (a + multiset(b)) + Once(x, before || here)
  {
    if here {
      assert multiset(b + [x]) == multiset(b) + multiset{x};
    } else {
      assert b + [] == b;
    }
  }

  lemma NoneOrOnce(x: Job)
    ensures Once(x, false) == multiset{} && Once(x, true) == multiset{x}
  {
  }

  lemma StridesStep(lst: seq<Job>, k: nat, n: nat)
    requires 0 < n && 0 < k
    ensures StridesUpTo(lst, k, n) == StridesUpTo(lst, k - 1, n) + multiset(Stride(lst, k - 1, n))
  {
  }

  lemma {:induction false} StridesSnoc(lst: seq<Job>, x: Job, k: nat, n: nat)
    requires 0 < n && k <= n
    ensures StridesUpTo(lst + [x], k, n) == StridesUpTo(lst, k, n) + Once(x, Residue(|lst|, n) < k)
  {
    hide Stride, Residue, Hits, Once, StridesUpTo;
    if k == 0 {
      NoneOrOnce(x);
      StridesNone(lst, n);
      StridesNone(lst + [x], n);
    } else {
      var r := Residue(|lst|, n);
      StridesSnoc(lst, x, k - 1, n);
      StrideSnoc(lst, x, k - 1, n);
      HitsOnce(k - 1, |lst|, n);
      StridesStep(lst, k, n);
      StridesStep(lst + [x], k, n);
      OneMore(StridesUpTo(lst, k - 1, n), Stride(lst, k - 1, n), x, r < k - 1, r == k - 1);
    }
  }

  lemma StridesNone(lst: seq<Job>, n: nat)
    requires 0 < n
    ensures StridesUpTo(lst, 0, n) == multiset{}
  {
  }

  lemma {:induction false} NoStrides(k: nat, n: nat)
    requires n > 0
    ensures StridesUpTo([], k, n) == multiset{}
  {
    if k > 0 { NoStrides(k - 1, n); }
  }

  /** `chunkify` gives every recipe to exactly one worker. */
  lemma {:induction false} ChunksPartition(lst: seq<Job>, n: nat)
    requires n > 0
    ensures StridesUpTo(lst, n, n) == multiset(lst)
  {
    if lst == [] {
      NoStrides(n, n);
    } else {
      var front, x := lst[..|lst| - 1], lst[|lst| - 1];
      assert lst == front + [x];
      ChunksPartition(front, n);
      StridesSnoc(front, x, n, n);
    }
  }

  lemma {:induction false} InNewWorkers(lst: seq<Job>, k: nat, n: nat)
    requires 0 < n && k <= n
    ensures InWorkers(Initial(lst, n).workers[..k]) == StridesUpTo(lst, k, n)
  {
    hide WorkerJobs, Stride;
    var ws := Initial(lst, n).workers;
    if k > 0 {
      InNewWorkers(lst, k - 1, n);
      assert ws[..k][..k - 1] == ws[..k - 1];
      assert ws[k - 1] == NewWorker(Stride(lst, k - 1, n));
      NewWorkerJobs(Stride(lst, k - 1, n));
    }
  }

  lemma NewWorkerJobs(jobs: seq<Job>)
    ensures WorkerJobs(NewWorker(jobs)) == multiset(jobs)
  {
  }

  lemma InitialHasAll(lst: seq<Job>, n: nat)
    requires n > 0
    ensures Everything(Initial(lst, n)) == multiset(lst)
  {
    var s := Initial(lst, n);
    InNewWorkers(lst, n, n);
    assert s.workers[..n] == s.workers;
    ChunksPartition(lst, n);
  }

  // ----- what every run keeps -----

  ghost predicate WorkerOk(w: Worker) {
    && (!w.havejobs ==> w.jobs == [])
    && (w.pc == Closing ==> !w.havejobs && w.pending == [])
    && (!w.Alive() ==> w.jobs == [] && w.pending == [] && w.buffer == [])
  }

  ghost predicate SomeKilled(s: State) {
    exists i :: 0 <= i < |s.workers| && s.workers[i].pc == Killed
  }

  /** Live workers are watched, and the list of watched processes only shrinks. */
  ghost predicate Watched(s: State) {
    && (forall i :: 0 <= i < |s.workers| && s.workers[i].Alive() ==> i in s.processes)
    && (forall p :: p in s.processes ==> p < |s.workers|)
    && Distinct(s.processes) && |s.processes| <= |s.workers|
    && (s.main.Reaping? ==> |s.main.todo| <= |s.workers| && forall p :: p in s.main.todo ==> p < |s.workers|)
  }

  ghost predicate Counted(s: State) {
    && (!s.main.Aborted? ==> s.parsed == |s.consumed| && forall r :: r in s.consumed ==> !r.failed)
    && (s.main == AtGet ==> s.parsed < s.toparse)
    && (s.main == Ended ==> s.parsed >= s.toparse)
  }

  ghost predicate Inv(s: State, all: multiset<Job>) {
    && Everything(s) == all && |all| == s.toparse
    && (forall i :: 0 <= i < |s.workers| ==> WorkerOk(s.workers[i]))
    && Watched(s) && Counted(s)
    && (!SomeKilled(s) ==> s.lost == multiset{})
    && (s.main == AtLoop && s.empty && s.processes == [] ==> SomeKilled(s))
    && (s.main == RaisedError ==> SomeKilled(s))
  }

  lemma InitialInv(lst: seq<Job>, n: nat)
    requires n > 0
    ensures Inv(Initial(lst, n), multiset(lst))
  {
    hide Stride, Everything, WorkerJobs;
    InitialHasAll(lst, n);
    assert |multiset(lst)| == |lst|;
    var s := Initial(lst, n);
    assert forall i :: 0 <= i < n ==> s.processes[i] == i && s.workers[i].jobs == Chunkify(lst, n)[i];
  }

  lemma {:induction false} IdleWorkersHaveNothing(ws: seq<Worker>)
    requires forall i :: 0 <= i < |ws| ==> WorkerOk(ws[i]) && !ws[i].Alive()
    ensures InWorkers(ws) == multiset{}
  {
    if |ws| > 0 {
      IdleWorkersHaveNothing(ws[..|ws| - 1]);
      NothingLeft(ws[|ws| - 1]);
    }
  }

  lemma {:induction false} NamesSize(rs: seq<Outcome>)
    ensures |Names(rs)| == |rs|
  {
    if |rs| > 0 { NamesSize(rs[..|rs| - 1]); }
  }

  /** With every worker gone and none killed, an empty queue means that all results are in. */
  lemma AllIn(s: State, all: multiset<Job>)
    requires Inv(s, all) && s.processes == [] && s.queue == [] && !SomeKilled(s) && !s.main.Aborted?
    ensures s.parsed == s.toparse
  {
    IdleWorkersHaveNothing(s.workers);
    NamesSize(s.consumed);
  }

  lemma WorkerStepOk(w: Worker, w': Worker)
    requires WorkerOk(w) && WorkerStep(w, w')
    ensures WorkerOk(w') && w.Alive() && w'.pc != Killed
  {
  }

  lemma KilledStays(s: State, step: Step, t: State)
    requires Takes(s, step, t) && SomeKilled(s) && (forall i :: 0 <= i < |s.workers| ==> WorkerOk(s.workers[i]))
    ensures SomeKilled(t)
  {
    hide WorkerStep;
    var i :| 0 <= i < |s.workers| && s.workers[i].pc == Killed;
    match step
    case WorkerMoves(j) =>
      var w' :| WorkerStep(s.workers[j], w') && t == s.(workers := s.workers[j := w']);
      WorkerStepOk(s.workers[j], w');
      assert t.workers[i].pc == Killed;
    case _ => assert t.workers[i].pc == Killed;
  }

  lemma StepKeepsWorkers(s: State, step: Step, t: State)
    requires Takes(s, step, t) && forall i :: 0 <= i < |s.workers| ==> WorkerOk(s.workers[i])
    ensures |t.workers| == |s.workers|
    ensures forall i :: 0 <= i < |t.workers| ==>
      WorkerOk(t.workers[i]) && (t.workers[i].Alive() ==> s.workers[i].Alive())
  {
    hide WorkerStep, WorkerJobs;
    match step
    case WorkerMoves(j) =>
      var w' :| WorkerStep(s.workers[j], w') && t == s.(workers := s.workers[j := w']);
      WorkerStepOk(s.workers[j], w');
    case _ =>
  }

  lemma StepKeepsLost(s: State, step: Step, t: State, all: multiset<Job>)
    requires Inv(s, all) && Takes(s, step, t)
    ensures t.lost == multiset{} || SomeKilled(t)
  {
    hide WorkerStep, WorkerJobs, WorkerOk, Everything;
    if SomeKilled(s) { KilledStays(s, step, t); }
    match step
    case WorkerKilled(i) => assert t.workers[i].pc == Killed;
    case _ =>
  }

  lemma StepKeepsWatched(s: State, step: Step, t: State)
    requires Watched(s) && Takes(s, step, t) && forall i :: 0 <= i < |s.workers| ==> WorkerOk(s.workers[i])
    ensures Watched(t)
  {
    hide WorkerStep, WorkerJobs, WorkerOk;
    StepKeepsWorkers(s, step, t);
    match step
    case WorkerMoves(i) =>
      var w' :| WorkerStep(s.workers[i], w') && t == s.(workers := s.workers[i := w']);
    case ReapOne =>
      if s.main.todo != [] {
        WithoutDistinct(s.processes, s.main.todo[0]);
        assert forall p :: p in t.main.todo ==> p in s.main.todo;
      }
    case _ =>
  }

  lemma StepKeepsCounted(s: State, step: Step, t: State)
    requires Counted(s) && Takes(s, step, t)
    ensures Counted(t)
  {
    hide WorkerStep, WorkerJobs;
    match step
    case WorkerMoves(i) =>
      var w' :| WorkerStep(s.workers[i], w') && t == s.(workers := s.workers[i := w']);
    case _ =>
  }

  /** Every step of every process keeps the invariant. */
  lemma StepKeepsInv(s: State, step: Step, t: State, all: multiset<Job>)
    requires Inv(s, all) && Takes(s, step, t)
    ensures Inv(t, all)
  {
    hide WorkerStep, WorkerJobs, WorkerOk, Everything, SomeKilled, Watched, Counted;
    StepKeepsEverything(s, step, t);
    StepKeepsWorkers(s, step, t);
    StepKeepsWatched(s, step, t);
    StepKeepsCounted(s, step, t);
    StepKeepsLost(s, step, t, all);
    if SomeKilled(s) { KilledStays(s, step, t); }
    match step
    case WorkerMoves(i) =>
      var w' :| WorkerStep(s.workers[i], w') && t == s.(workers := s.workers[i := w']);
    case GetTimeout =>
      if s.processes == [] && !SomeKilled(s) {
        AllIn(s, all);
        ReadyToGet(s);
      }
    case LoopTest =>
    case _ =>
  }

  lemma ReadyToGet(s: State)
    requires Counted(s) && s.main == AtGet
    ensures s.parsed < s.toparse
  {
  }

  lemma {:induction false} RunKeepsInv(states: seq<State>, steps: seq<Step>, all: multiset<Job>, k: nat)
    requires Run(states, steps) && Inv(states[0], all) && k < |states|
    ensures Inv(states[k], all)
  {
    hide Inv, Takes;
    if k > 0 {
      RunKeepsInv(states, steps, all, k - 1);
      StepKeepsInv(states[k - 1], steps[k - 1], states[k], all);
    }
  }

  // ----- main results -----

  /**
   Conservation: at every moment of every run, each recipe is counted exactly once among the jobs,
   pending results and feeder buffers of the workers, the queue, the consumed results and what
   killed workers took with them.
   */
  lemma EveryRecipeIsInOnePlace(lst: seq<Job>, n: nat, states: seq<State>, steps: seq<Step>, k: nat)
    requires n > 0 && Run(states, steps) && states[0] == Initial(lst, n) && k < |states|
    ensures Everything(states[k]) == multiset(lst)
  {
    InitialInv(lst, n);
    RunKeepsInv(states, steps, multiset(lst), k);
  }

  /** When the generator ends, each recipe was delivered exactly once, and parsed without failure. */
  lemma EndedMeansDelivered(lst: seq<Job>, n: nat, states: seq<State>, steps: seq<Step>, k: nat)
    requires n > 0 && Run(states, steps) && states[0] == Initial(lst, n) && k < |states| && states[k].main == Ended
    ensures Names(states[k].consumed) == multiset(lst)
    ensures states[k].lost == multiset{} && forall r :: r in states[k].consumed ==> !r.failed
  {
    InitialInv(lst, n);
    RunKeepsInv(states, steps, multiset(lst), k);
    var s := states[k];
    NamesSize(s.consumed);
    SameSize(Names(s.consumed), InWorkers(s.workers) + Names(s.queue) + s.lost, multiset(lst));
  }

  lemma SameSize(a: multiset<Job>, b: multiset<Job>, c: multiset<Job>)
    requires a + b == c && |a| >= |c|
    ensures a == c && b == multiset{}
  {
    assert |a + b| == |a| + |b|;
  }

  /** "Not all recipes parsed" is raised only after a worker was killed. */
  lemma NeverFailsFalsely(lst: seq<Job>, n: nat, states: seq<State>, steps: seq<Step>, k: nat)
    requires n > 0 && Run(states, steps) && states[0] == Initial(lst, n) && k < |states|
    requires states[k].main == RaisedError
    ensures SomeKilled(states[k])
  {
    InitialInv(lst, n);
    RunKeepsInv(states, steps, multiset(lst), k);
  }

  /** Without any worker, the generator does fail, after one empty read of the queue. */
  lemma FailsWithoutWorkers(lst: seq<Job>) returns (states: seq<State>, steps: seq<Step>)
    requires lst != []
    ensures Run(states, steps) && states[0] == Initial(lst, 0) && states[|steps|].main == RaisedError
    ensures !SomeKilled(states[|steps|])
  {
    var s0 := Initial(lst, 0);
    assert s0.processes == [];
    var s1 := s0.(main := Reaping([]));
    var s2 := s0.(main := AtCheck);
    var s3 := s0.(main := AtGet);
    var s4 := s0.(empty := true);
    var s5 := s4.(main := RaisedError);
    states := [s0, s1, s2, s3, s4, s5];
    steps := [LoopTest, ReapOne, CheckParsed, GetTimeout, LoopTest];
    assert Takes(s0, LoopTest, s1) && Takes(s1, ReapOne, s2) && Takes(s2, CheckParsed, s3);
    assert Takes(s3, GetTimeout, s4) && Takes(s4, LoopTest, s5);
  }

  // ----- progress -----

  function WorkerRank(w: Worker): nat {
    5 * |w.jobs| + 3 * |w.pending| + |w.buffer| + (if w.havejobs then 3 else 0) +
    match w.pc
    case Top => 2
    case Putting => if w.pending == [] then 3 else 1
    case Closing => 1
    case Exited => 0
    case Killed => 0
  }

  /** A worker that the queue does not refuse gets closer to its exit with every step, and can always take one. */
  lemma WorkersAdvance(w: Worker, w': Worker)
    requires WorkerOk(w) && WorkerStep(w, w') && !(PutResult(w, w', true) && w.pending != [])
    ensures WorkerRank(w') < WorkerRank(w)
  {
  }

  lemma WorkersCanMove(w: Worker) returns (w': Worker)
    requires WorkerOk(w) && w.Alive()
    ensures (WorkerStep(w, w') && WorkerRank(w') < WorkerRank(w)) || w.buffer != []
  {
    w' := w;
    match w.pc
    case Top =>
      if w.havejobs || w.pending != [] {
        if w.jobs != [] {
          var job := w.jobs[|w.jobs| - 1];
          w' := w.(pc := Putting, jobs := w.jobs[..|w.jobs| - 1], pending := w.pending + [Outcome(job, false)]);
          assert TakeJob(w, w', false);
        } else {
          w' := w.(pc := Putting, havejobs := false);
          assert TakeJob(w, w', false);
        }
      } else {
        w' := w.(pc := Closing);
        assert CloseQueue(w, w');
      }
    case Putting =>
      if w.pending != [] {
        w' := w.(pc := Top, pending := w.pending[..|w.pending| - 1], buffer := w.buffer + [w.pending[|w.pending| - 1]]);
      } else {
        w' := w.(pc := Top);
      }
      assert PutResult(w, w', false);
    case Closing =>
      if w.buffer == [] {
        w' := w.(pc := Exited);
        assert Exit(w, w');
      }
    case _ =>
  }

  /** A process that the pass in progress will not look at any more. */
  ghost predicate Missed(s: State) {
    match s.main
    case Reaping(todo) => exists p :: p in s.processes && p !in todo
    case AtCheck => s.processes != []
    case AtGet => s.processes != []
    case _ => false
  }

  /** A result in the queue is worth more than a whole pass. */
  ghost function QueueRank(n: nat, q: nat): nat { (2 * n + 20) * q }

  lemma OneResultLess(n: nat, q: nat)
    requires q > 0
    ensures QueueRank(n, q) == QueueRank(n, q - 1) + 2 * n + 20
  {
  }

  ghost function GeneratorRank(s: State): nat {
    var n := |s.workers|;
    QueueRank(n, |s.queue|) + (if Missed(s) then n + 6 else 0) +
    match s.main
    case AtLoop => if s.processes == [] && s.empty then 1 else n + 6
    case Reaping(todo) => |todo| + 4
    case AtCheck => 3
    case AtGet => 2
    case _ => 0
  }

  /** Once no worker is alive, every step of the generator brings it closer to its end. */
  lemma GeneratorAdvances(s: State, step: Step, t: State, all: multiset<Job>)
    requires Inv(s, all) && Takes(s, step, t)
    requires forall i :: 0 <= i < |s.workers| ==> !s.workers[i].Alive()
    ensures GeneratorRank(t) < GeneratorRank(s)
  {
    hide Everything, WorkerJobs, SomeKilled, QueueRank;
    var n := |s.workers|;
    match step
    case WorkerMoves(i) =>
      var w' :| WorkerStep(s.workers[i], w') && t == s.(workers := s.workers[i := w']);
      WorkerStepOk(s.workers[i], w');
      assert false;
    case GetResult =>
      OneResultLess(n, |s.queue|);
    case ReapOne =>
      if s.main.todo != [] {
        var p := s.main.todo[0];
        assert p in s.main.todo;
        WithoutDistinct(s.processes, p);
        assert !s.workers[p].Alive();
        if !Missed(s) {
          forall q | q in t.processes
            ensures q in t.main.todo
          {
            assert q in s.processes && q != p;
            assert q in s.main.todo;
          }
        }
      } else if s.processes != [] {
        assert s.processes[0] in s.processes;
      }
    case _ =>
  }

  /** The generator always has a next step until it has ended or raised. */
  lemma GeneratorCanMove(s: State, all: multiset<Job>) returns (step: Step, t: State)
    requires Inv(s, all) && s.main != Ended && s.main != RaisedError && s.main != Aborted
    ensures Takes(s, step, t) && !OfWorkers(step) && t.workers == s.workers
  {
    match s.main
    case AtLoop =>
      step := LoopTest;
      t := s.(main :=
        if s.processes != [] || !s.empty then Reaping(s.processes)
        else if s.parsed >= s.toparse then Ended else RaisedError);
    case Reaping(todo) =>
      step := ReapOne;
      if todo == [] {
        t := s.(main := AtCheck);
      } else {
        var p := todo[0];
        assert p in todo;
        t := s.(main := Reaping(todo[1..]),
                processes := if s.workers[p].Alive() then s.processes else Without(s.processes, p));
      }
    case AtCheck =>
      step := CheckParsed;
      t := s.(main := if s.parsed >= s.toparse then Ended else AtGet);
    case AtGet =>
      if s.queue == [] {
        step := GetTimeout;
        t := s.(empty := true, main := AtLoop);
      } else {
        step := GetResult;
        var r := s.queue[0];
        t := s.(queue := s.queue[1..], empty := false, consumed := s.consumed + [r],
                main := if r.failed then Aborted else AtLoop, parsed := if r.failed then s.parsed else s.parsed + 1);
      }
  }

  // ----- whole runs end -----

  ghost predicate NoneAlive(s: State) {
    forall i :: 0 <= i < |s.workers| ==> !s.workers[i].Alive()
  }

  predicate Finished(s: State) {
    s.main == Ended || s.main == RaisedError || s.main == Aborted
  }

  /** No process has a step left. */
  ghost predicate Halted(s: State) {
    forall step, t :: !Takes(s, step, t)
  }

  /** Once no worker is alive, what is left of a run is bounded by the rank it has then. */
  lemma {:induction false} GeneratorStepsBounded(states: seq<State>, steps: seq<Step>, all: multiset<Job>, j: nat,
      k: nat)
    requires Run(states, steps) && Inv(states[0], all) && j <= k < |states| && NoneAlive(states[j])
    ensures NoneAlive(states[k]) && k - j <= GeneratorRank(states[j]) - GeneratorRank(states[k])
    decreases k
  {
    hide Takes, GeneratorRank, Inv;
    if j < k {
      GeneratorStepsBounded(states, steps, all, j, k - 1);
      RunKeepsInv(states, steps, all, k - 1);
      GeneratorAdvances(states[k - 1], steps[k - 1], states[k], all);
      DeadStay(states[k - 1], steps[k - 1], states[k], all);
    }
  }

  lemma DeadStay(s: State, step: Step, t: State, all: multiset<Job>)
    requires Inv(s, all) && Takes(s, step, t) && NoneAlive(s)
    ensures NoneAlive(t)
  {
    hide Takes, Everything, Watched, Counted;
    StepKeepsWorkers(s, step, t);
  }

  /** Nothing can move only when every worker is gone and the generator has ended or raised. */
  lemma HaltedIsFinished(s: State, all: multiset<Job>)
    requires Inv(s, all)
    ensures Halted(s) <==> NoneAlive(s) && Finished(s)
  {
    hide Everything, Watched, Counted, SomeKilled;
    if Halted(s) {
      if !Finished(s) {
        var step, t := GeneratorCanMove(s, all);
      }
      if i :| 0 <= i < |s.workers| && s.workers[i].Alive() {
        var step, t := WorkerSideCanMove(s, i);
      }
    } else if NoneAlive(s) && Finished(s) {
      var step, t :| Takes(s, step, t);
      if step.WorkerMoves? {
        var w' :| WorkerStep(s.workers[step.i], w') && t == s.(workers := s.workers[step.i := w']);
        WorkerStepOk(s.workers[step.i], w');
      }
    }
  }

  /** A live worker or its feeder has a step that lowers the rank of the workers. */
  lemma WorkerSideCanMove(s: State, i: nat) returns (step: Step, t: State)
    requires i < |s.workers| && WorkerOk(s.workers[i]) && s.workers[i].Alive()
    ensures Takes(s, step, t) && !step.WorkerKilled? && PoolRank(t.workers) < PoolRank(s.workers)
  {
    hide WorkerStep, WorkerRank;
    var w := s.workers[i];
    var w' := WorkersCanMove(w);
    if WorkerStep(w, w') && WorkerRank(w') < WorkerRank(w) {
      step, t := WorkerMoves(i), s.(workers := s.workers[i := w']);
      PoolRankUpdate(s.workers, i, w');
    } else {
      step := FeederWrites(i);
      w' := w.(buffer := w.buffer[1..]);
      t := s.(workers := s.workers[i := w'], queue := s.queue + [w.buffer[0]]);
      FeederAdvances(w);
      PoolRankUpdate(s.workers, i, w');
    }
  }

  lemma FeederAdvances(w: Worker)
    requires w.buffer != []
    ensures WorkerRank(w.(buffer := w.buffer[1..])) == WorkerRank(w) - 1
  {
  }

  function PoolRank(ws: seq<Worker>): nat {
    if |ws| == 0 then 0 else PoolRank(ws[..|ws| - 1]) + WorkerRank(ws[|ws| - 1])
  }

  lemma {:induction false} PoolRankUpdate(ws: seq<Worker>, i: nat, w: Worker)
    requires i < |ws|
    ensures PoolRank(ws[i := w]) == PoolRank(ws) - WorkerRank(ws[i]) + WorkerRank(w)
  {
    hide WorkerRank;
    var n := |ws| - 1;
    if i == n {
      assert ws[i := w][..n] == ws[..n];
    } else {
      assert ws[i := w][..n] == ws[..n][i := w];
      PoolRankUpdate(ws[..n], i, w);
    }
  }

  /** A `put` that finds the queue full. */
  ghost predicate Refused(s: State, step: Step, t: State) {
    step.WorkerMoves? && step.i < |s.workers| && s.workers[step.i].pending != [] &&
    step.i < |t.workers| && PutResult(s.workers[step.i], t.workers[step.i], true)
  }

  predicate OfWorkers(step: Step) {
    step.WorkerMoves? || step.FeederWrites? || step.WorkerKilled?
  }

  /** The steps of workers, feeders and signals, and the refusals, among the first k steps of a run. */
  ghost function WorkerSteps(steps: seq<Step>, k: nat): nat
    requires k <= |steps|
  {
    if k == 0 then 0 else WorkerSteps(steps, k - 1) + if OfWorkers(steps[k - 1]) then 1 else 0
  }

  ghost function Refusals(states: seq<State>, steps: seq<Step>, k: nat): nat
    requires k <= |steps| < |states|
  {
    if k == 0 then 0
    else Refusals(states, steps, k - 1) + if Refused(states[k - 1], steps[k - 1], states[k]) then 1 else 0
  }

  lemma WorkerSideAdvances(s: State, step: Step, t: State)
    requires Takes(s, step, t) && forall i :: 0 <= i < |s.workers| ==> WorkerOk(s.workers[i])
    ensures OfWorkers(step) ==> PoolRank(t.workers) < PoolRank(s.workers) + if Refused(s, step, t) then 2 else 0
    ensures !OfWorkers(step) ==> t.workers == s.workers
  {
    hide WorkerStep, WorkerRank, WorkerJobs, PutResult;
    match step
    case WorkerMoves(i) =>
      var w' :| WorkerStep(s.workers[i], w') && t == s.(workers := s.workers[i := w']);
      PoolRankUpdate(s.workers, i, w');
      MoveRank(s.workers[i], w');
    case FeederWrites(i) =>
      var w := s.workers[i];
      FeederAdvances(w);
      PoolRankUpdate(s.workers, i, w.(buffer := w.buffer[1..]));
    case WorkerKilled(i) =>
      PoolRankUpdate(s.workers, i, Worker(Killed, [], false, [], []));
      KillRank(s.workers[i]);
    case _ =>
  }

  lemma KillRank(w: Worker)
    requires w.Alive()
    ensures WorkerRank(Worker(Killed, [], false, [], [])) < WorkerRank(w)
  {
  }

  lemma MoveRank(w: Worker, w': Worker)
    requires WorkerOk(w) && WorkerStep(w, w')
    ensures WorkerRank(w') < WorkerRank(w) + if w.pending != [] && PutResult(w, w', true) then 2 else 0
  {
    if !(PutResult(w, w', true) && w.pending != []) { WorkersAdvance(w, w'); }
  }

  /** The workers together take a bounded number of steps in any run, apart from retries after a refusal. */
  lemma {:induction false} WorkerStepsBounded(states: seq<State>, steps: seq<Step>, all: multiset<Job>, k: nat)
    requires Run(states, steps) && Inv(states[0], all) && k < |states|
    ensures WorkerSteps(steps, k) <=
      PoolRank(states[0].workers) - PoolRank(states[k].workers) + 2 * Refusals(states, steps, k)
  {
    hide Takes, Inv, PoolRank, Refused;
    if k > 0 {
      WorkerStepsBounded(states, steps, all, k - 1);
      RunKeepsInv(states, steps, all, k - 1);
      InvWorkers(states[k - 1], all);
      WorkerSideAdvances(states[k - 1], steps[k - 1], states[k]);
    }
  }

  lemma InvWorkers(s: State, all: multiset<Job>)
    requires Inv(s, all)
    ensures forall i :: 0 <= i < |s.workers| ==> WorkerOk(s.workers[i])
  {
  }

  /**
   Every run of the pool delivers: once the workers are gone, only `GeneratorRank` more steps fit, and a run
   that stops because nothing can move, with no worker killed and no parse failed, has ended with every
   recipe delivered exactly once.
   */
  lemma RunsDeliver(lst: seq<Job>, n: nat, states: seq<State>, steps: seq<Step>, j: nat)
    requires n > 0 && Run(states, steps) && states[0] == Initial(lst, n) && j <= |steps|
    ensures NoneAlive(states[j]) ==> |steps| - j <= GeneratorRank(states[j])
    ensures Halted(states[|steps|]) ==> NoneAlive(states[|steps|]) && Finished(states[|steps|])
    ensures Halted(states[|steps|]) && !SomeKilled(states[|steps|]) && states[|steps|].main != Aborted ==>
              states[|steps|].main == Ended && Names(states[|steps|].consumed) == multiset(lst)
  {
    hide Inv, Takes, GeneratorRank, SomeKilled, NoneAlive, Halted;
    InitialInv(lst, n);
    var k := |steps|;
    RunKeepsInv(states, steps, multiset(lst), k);
    if NoneAlive(states[j]) { GeneratorStepsBounded(states, steps, multiset(lst), j, k); }
    HaltedIsFinished(states[k], multiset(lst));
    if states[k].main == RaisedError { NeverFailsFalsely(lst, n, states, steps, k); }
    if states[k].main == Ended { EndedMeansDelivered(lst, n, states, steps, k); }
  }

  /** No state is a trap: from everywhere some run leads to a state where nothing moves, killing no worker. */
  lemma {:induction false} AlwaysFinishes(s: State, all: multiset<Job>) returns (states: seq<State>, steps: seq<Step>)
    requires Inv(s, all)
    ensures Run(states, steps) && states[0] == s && Halted(states[|steps|])
    ensures forall step :: step in steps ==> !step.WorkerKilled?
    decreases PoolRank(s.workers), GeneratorRank(s)
  {
    hide Inv, Takes, GeneratorRank, PoolRank, NoneAlive, Halted;
    states, steps := [s], [];
    HaltedIsFinished(s, all);
    if Halted(s) {
      return;
    }
    var step, t := SomeMove(s, all);
    StepKeepsInv(s, step, t, all);
    var later, rest := AlwaysFinishes(t, all);
    states, steps := [s] + later, [step] + rest;
    forall i | 0 <= i < |steps|
      ensures Takes(states[i], steps[i], states[i + 1])
    {
      if i > 0 { assert Takes(later[i - 1], rest[i - 1], later[i]); }
    }
  }

  /** A step that lowers the rank of the pool: the workers' first, the generator's when they are gone. */
  lemma SomeMove(s: State, all: multiset<Job>) returns (step: Step, t: State)
    requires Inv(s, all) && !Halted(s)
    ensures Takes(s, step, t) && !step.WorkerKilled?
    ensures PoolRank(t.workers) < PoolRank(s.workers) || (t.workers == s.workers && GeneratorRank(t) < GeneratorRank(s))
  {
    hide Takes, GeneratorRank, PoolRank, Halted, Everything, Watched, Counted, SomeKilled;
    HaltedIsFinished(s, all);
    if i :| 0 <= i < |s.workers| && s.workers[i].Alive() {
      step, t := WorkerSideCanMove(s, i);
    } else {
      step, t := GeneratorCanMove(s, all);
      GeneratorAdvances(s, step, t, all);
    }
  }
}
