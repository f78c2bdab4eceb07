/**
 The interning codec of `SiggenRecipeInfo`: a value is sent in full the first time and by number
 afterwards. Many writer processes stream to one reader.
 */
module InterningCodec {
  import opened Wrappers

  /** A value that can be interned: a string, or a frozenset of variable names. */
  datatype Blob = Text(s: string) | Vars(names: set<string>)

  /** One item of a dictionary; the value may be None. */
  datatype Dep = Dep(key: string, value: Option<Blob>)

  /** `(dep, fs, mapnum)` */
  datatype Triple = Triple(key: string, fs: Option<Blob>, num: Option<nat>)

  /** A dictionary in its order, or None. */
  type Deps = Option<seq<Dep>>

  /** None and the empty dictionary are sent as they are. */
  type Encoded = Option<seq<Triple>>

  type Pid = nat

  predicate DistinctKeys(ds: seq<Dep>) {
    forall i, j :: 0 <= i < j < |ds| ==> ds[i].key != ds[j].key
  }

  predicate IsDict(d: Deps) { d.None? || DistinctKeys(d.value) }

  // ----- what the two directions compute -----

  /** `save_map` and `save_count` */
  datatype Writer = Writer(ids: map<Blob, nat>, next: nat)

  const FRESH := Writer(map[], 1)

  function EncodeOne(w: Writer, d: Dep): (Triple, Writer) {
    if d.value.None? then (Triple(d.key, None, None), w)
    else if d.value.value in w.ids then (Triple(d.key, None, Some(w.ids[d.value.value])), w)
    else (Triple(d.key, d.value, Some(w.next)), Writer(w.ids[d.value.value := w.next], w.next + 1))
  }

  function Encode(w: Writer, ds: seq<Dep>): (seq<Triple>, Writer)
    decreases |ds|
  {
    if |ds| == 0 then ([], w)
    else
      var (t, w1) := EncodeOne(w, ds[0]);
      var (ts, w2) := Encode(w1, ds[1..]);
      ([t] + ts, w2)
  }

  lemma EncodeHead(w: Writer, ds: seq<Dep>, front: seq<Triple>)
    requires |ds| > 0
    ensures var (t, w1) := EncodeOne(w, ds[0]);
            && front + Encode(w, ds).0 == (front + [t]) + Encode(w1, ds[1..]).0
            && Encode(w, ds).1 == Encode(w1, ds[1..]).1
  {
    hide EncodeOne;
    var (t, w1) := EncodeOne(w, ds[0]);
    assert front + ([t] + Encode(w1, ds[1..]).0) == (front + [t]) + Encode(w1, ds[1..]).0;
  }

  lemma EncodeNothing(w: Writer, front: seq<Triple>)
    ensures front + Encode(w, []).0 == front && Encode(w, []).1 == w
  {
  }

  function EncodeDeps(w: Writer, d: Deps): (Encoded, Writer) {
    if d.None? || d.value == [] then (if d.None? then None else Some([]), w)
    else
      var (ts, w') := Encode(w, d.value);
      (Some(ts), w')
  }

  /** `ret[dep] = fs` */
  function Put(ret: seq<Dep>, d: Dep): seq<Dep> {
    if |ret| == 0 then [d] else if ret[0].key == d.key then [d] + ret[1..] else [ret[0]] + Put(ret[1..], d)
  }

  /** The values received from one writer by number. */
  type Numbers = map<nat, Blob>

  function DecodeOne(m: Numbers, t: Triple): Result<(Option<Blob>, Numbers)> {
    match (t.fs, t.num)
    case (None, None) => Ok((None, m))
    case (None, Some(n)) => if n in m then Ok((Some(m[n]), m)) else Raised
    case (Some(fs), Some(n)) => Ok((Some(fs), m[n := fs]))
    case (Some(fs), None) => Ok((Some(fs), m))
  }

  function Decode(m: Numbers, ts: seq<Triple>, ret: seq<Dep>): Result<(seq<Dep>, Numbers)>
    decreases |ts|
  {
    if |ts| == 0 then Ok((ret, m)) else
      match DecodeOne(m, ts[0])
      case Raised => Raised
      case Ok((v, m')) => Decode(m', ts[1..], Put(ret, Dep(ts[0].key, v)))
  }

  function DecodeDeps(m: Numbers, e: Encoded): Result<(Deps, Numbers)> {
    if e.None? || e.value == [] then Ok((if e.None? then None else Some([]), m)) else
      match Decode(m, e.value, [])
      case Raised => Raised
      case Ok((ds, m')) => Ok((Some(ds), m'))
  }

  // ----- one message undoes the other -----

  /** Numbers are distinct and below the counter. */
  ghost predicate WriterOk(w: Writer) {
    && (forall b :: b in w.ids ==> w.ids[b] < w.next)
    && (forall b, c :: b in w.ids && c in w.ids && b != c ==> w.ids[b] != w.ids[c])
  }

  /** The reader knows every number that the writer has given out. */
  ghost predicate Inverts(m: Numbers, w: Writer) {
    forall b :: b in w.ids ==> w.ids[b] in m && m[w.ids[b]] == b
  }

  lemma EncodeOneInverts(m: Numbers, w: Writer, d: Dep)
    requires WriterOk(w) && Inverts(m, w)
    ensures WriterOk(EncodeOne(w, d).1)
    ensures var r := DecodeOne(m, EncodeOne(w, d).0);
      r.Ok? && r.value.0 == d.value && Inverts(r.value.1, EncodeOne(w, d).1)
    ensures EncodeOne(w, d).0.key == d.key
  {
  }

  lemma {:induction false} PutNew(ret: seq<Dep>, d: Dep)
    requires forall i :: 0 <= i < |ret| ==> ret[i].key != d.key
    ensures Put(ret, d) == ret + [d]
  {
    if |ret| > 0 { PutNew(ret[1..], d); }
  }

  lemma {:induction false} EncodeInverts(m: Numbers, w: Writer, ds: seq<Dep>, ret: seq<Dep>)
    requires WriterOk(w) && Inverts(m, w) && DistinctKeys(ret + ds)
    ensures WriterOk(Encode(w, ds).1) && |Encode(w, ds).0| == |ds|
    ensures var r := Decode(m, Encode(w, ds).0, ret);
      r.Ok? && r.value.0 == ret + ds && Inverts(r.value.1, Encode(w, ds).1)
    decreases |ds|
  {
    hide EncodeOne, DecodeOne, WriterOk, Inverts;
    if |ds| == 0 {
      assert ret + ds == ret;
    } else {
      EncodeOneInverts(m, w, ds[0]);
      var (t, w1) := EncodeOne(w, ds[0]);
      var m1 := DecodeOne(m, t).value.1;
      forall i | 0 <= i < |ret|
        ensures ret[i].key != ds[0].key
      {
        assert (ret + ds)[i] == ret[i] && (ret + ds)[|ret|] == ds[0];
      }
      PutNew(ret, ds[0]);
      assert (ret + [ds[0]]) + ds[1..] == ret + ds;
      EncodeInverts(m1, w1, ds[1..], ret + [ds[0]]);
      assert Encode(w, ds).0[1..] == Encode(w1, ds[1..]).0;
      assert Dep(t.key, ds[0].value) == ds[0];
    }
  }

  /** `_restore` of what `_save` produced is the dictionary, None values and empty dictionaries included. */
  lemma DepsRoundTrip(m: Numbers, w: Writer, d: Deps)
    requires WriterOk(w) && Inverts(m, w) && IsDict(d)
    ensures WriterOk(EncodeDeps(w, d).1)
    ensures var r := DecodeDeps(m, EncodeDeps(w, d).0);
      r.Ok? && r.value.0 == d && Inverts(r.value.1, EncodeDeps(w, d).1)
  {
    hide WriterOk, Inverts;
    if d.Some? && d.value != [] {
      assert [] + d.value == d.value;
      EncodeInverts(m, w, d.value, []);
    }
  }

  // ----- the class -----

  /** The three dictionaries of one recipe, and what `__getstate__` sends. */
  datatype Info = Info(gendeps: Deps, taskdeps: Deps, varvals: Deps)
  datatype State = State(gendeps: Encoded, taskdeps: Encoded, varvals: Encoded, pid: Pid)

  predicate IsInfo(i: Info) { IsDict(i.gendeps) && IsDict(i.taskdeps) && IsDict(i.varvals) }

  function EncodeInfo(w: Writer, i: Info, pid: Pid): (State, Writer) {
    var (g, w1) := EncodeDeps(w, i.gendeps);
    var (t, w2) := EncodeDeps(w1, i.taskdeps);
    var (v, w3) := EncodeDeps(w2, i.varvals);
    (State(g, t, v, pid), w3)
  }

  function DecodeInfo(m: Numbers, s: State): Result<(Info, Numbers)> {
    match DecodeDeps(m, s.gendeps)
    case Raised => Raised
    case Ok((g, m1)) =>
      match DecodeDeps(m1, s.taskdeps)
      case Raised => Raised
      case Ok((t, m2)) =>
        match DecodeDeps(m2, s.varvals)
        case Raised => Raised
        case Ok((v, m3)) => Ok((Info(g, t, v), m3))
  }

  lemma InfoRoundTrip(m: Numbers, w: Writer, i: Info, pid: Pid)
    requires WriterOk(w) && Inverts(m, w) && IsInfo(i)
    ensures WriterOk(EncodeInfo(w, i, pid).1)
    ensures var r := DecodeInfo(m, EncodeInfo(w, i, pid).0);
      r.Ok? && r.value.0 == i && Inverts(r.value.1, EncodeInfo(w, i, pid).1)
  {
    hide WriterOk, Inverts, EncodeDeps, DecodeDeps;
    var (g, w1) := EncodeDeps(w, i.gendeps);
    DepsRoundTrip(m, w, i.gendeps);
    var m1 := DecodeDeps(m, g).value.1;
    var (t, w2) := EncodeDeps(w1, i.taskdeps);
    DepsRoundTrip(m1, w1, i.taskdeps);
    var m2 := DecodeDeps(m1, t).value.1;
    DepsRoundTrip(m2, w2, i.varvals);
  }

  /** The class-level state of one process. */
  class SiggenRecipeInfo {
    var store: map<Blob, Blob>
    var saveMap: map<Blob, nat>
    var saveCount: nat
    var restoreMap: map<Pid, Numbers>

    constructor ()
      ensures Valid() && Saved() == FRESH && restoreMap == map[]
    {
      store, saveMap, saveCount, restoreMap := map[], map[], 1, map[];
    }

    /** The store only maps a value to an equal one. */
    ghost predicate Valid()
      reads this
    {
      forall b :: b in store ==> store[b] == b
    }

    ghost function Saved(): Writer
      reads this
    {
      Writer(saveMap, saveCount)
    }

    function From(pid: Pid): Numbers
      reads this
    {
      if pid in restoreMap then restoreMap[pid] else map[]
    }

    method Reset()
      requires Valid()
      modifies this
      ensures Valid() && Saved() == FRESH && restoreMap == map[]
    {
      saveMap, saveCount, restoreMap := map[], 1, map[];
    }

    method Save(deps: Deps) returns (ret: Encoded)
      modifies this`saveMap, this`saveCount
      ensures (ret, Saved()) == EncodeDeps(old(Saved()), deps)
    {
      hide Encode;
      if deps.None? {
        return None;
      }
      if deps.value == [] {
        return Some([]);
      }
      var out: seq<Triple> := [];
      assert deps.value[0..] == deps.value && [] + Encode(Saved(), deps.value).0 == Encode(Saved(), deps.value).0;
      for i := 0 to |deps.value|
        invariant var (rest, w) := Encode(Saved(), deps.value[i..]);
          (out + rest, w) == Encode(old(Saved()), deps.value)
      {
        var d := deps.value[i];
        ghost var before, rest := Saved(), deps.value[i..];
        ghost var soFar := out;
        assert rest[0] == d && rest[1..] == deps.value[i + 1..];
        if d.value.None? {
          out := out + [Triple(d.key, None, None)];
        } else if d.value.value in saveMap {
          out := out + [Triple(d.key, None, Some(saveMap[d.value.value]))];
        } else {
          saveMap := saveMap[d.value.value := saveCount];
          out := out + [Triple(d.key, d.value, Some(saveCount))];
          saveCount := saveCount + 1;
        }
        assert (out, Saved()) == (soFar + [EncodeOne(before, d).0], EncodeOne(before, d).1);
        EncodeHead(before, rest, soFar);
      }
      assert deps.value[|deps.value|..] == [];
      EncodeNothing(Saved(), out);
      ret := Some(out);
    }

    method Restore(deps: Encoded, pid: Pid) returns (r: Result<Deps>)
      requires Valid()
      modifies this`store, this`restoreMap
      ensures Valid()
      ensures match DecodeDeps(old(From(pid)), deps)
        case Raised => r.Raised?
        case Ok((d, m)) => r == Ok(d) && From(pid) == m
      ensures forall p :: p != pid ==> From(p) == old(From(p))
    {
      if deps.None? {
        return Ok(None);
      }
      if deps.value == [] {
        return Ok(Some([]));
      }
      if pid !in restoreMap {
        restoreMap := restoreMap[pid := map[]];
      }
      var out: seq<Dep> := [];
      for i := 0 to |deps.value|
        invariant Valid() && pid in restoreMap && forall p :: p != pid ==> From(p) == old(From(p))
        invariant Decode(restoreMap[pid], deps.value[i..], out) == Decode(old(From(pid)), deps.value, [])
      {
        var t := deps.value[i];
        ghost var rest := deps.value[i..];
        assert rest[0] == t && rest[1..] == deps.value[i + 1..];
        if t.fs.None? && t.num.None? {
          out := Put(out, Dep(t.key, None));
        } else if t.fs.None? {
          if t.num.value !in restoreMap[pid] {
            return Raised;
          }
          out := Put(out, Dep(t.key, Some(restoreMap[pid][t.num.value])));
        } else {
          var fs := t.fs.value;
          if fs in store {
            fs := store[fs];
          } else {
            store := store[fs := fs];
          }
          if t.num.Some? {
            var n: nat := t.num.value;
            var numbers: Numbers := restoreMap[pid][n := fs];
            restoreMap := restoreMap[pid := numbers];
          }
          out := Put(out, Dep(t.key, Some(fs)));
        }
      }
      assert deps.value[|deps.value|..] == [];
      r := Ok(Some(out));
    }

    method GetState(i: Info, pid: Pid) returns (s: State)
      modifies this`saveMap, this`saveCount
      ensures (s, Saved()) == EncodeInfo(old(Saved()), i, pid)
    {
      var g := Save(i.gendeps);
      var t := Save(i.taskdeps);
      var v := Save(i.varvals);
      s := State(g, t, v, pid);
    }

    method SetState(s: State) returns (r: Result<Info>)
      requires Valid()
      modifies this`store, this`restoreMap
      ensures Valid()
      ensures match DecodeInfo(old(From(s.pid)), s)
        case Raised => r.Raised?
        case Ok((i, m)) => r == Ok(i) && From(s.pid) == m
      ensures forall p :: p != s.pid ==> From(p) == old(From(p))
    {
      var g := Restore(s.gendeps, s.pid);
      if g.Raised? {
        return Raised;
      }
      var t := Restore(s.taskdeps, s.pid);
      if t.Raised? {
        return Raised;
      }
      var v := Restore(s.varvals, s.pid);
      if v.Raised? {
        return Raised;
      }
      r := Ok(Info(g.value, t.value, v.value));
    }
  }

  // ----- many writers, one reader -----

  /**
   Writer processes, the reader's numbers for each of them, and what is on its way. `behind` is the
   state each writer was in after the messages that the reader has consumed.
   */
  datatype System = System(
    writers: map<Pid, Writer>,
    channels: map<Pid, seq<(Info, State)>>,
    behind: map<Pid, Writer>,
    numbers: map<Pid, Numbers>)

  datatype Event =
    | Write(pid: Pid, info: Info)
    | Read(pid: Pid)
    /** The process ends and a new one gets its pid. */
    | Reuse(pid: Pid)

  function NumbersOf(s: System, pid: Pid): Numbers {
    if pid in s.numbers then s.numbers[pid] else map[]
  }

  predicate Possible(s: System, e: Event) {
    match e
    case Write(pid, info) => pid in s.writers && pid in s.channels && IsInfo(info)
    case Read(pid) => pid in s.channels && s.channels[pid] != [] && pid in s.behind
    case Reuse(pid) => pid in s.writers && pid in s.channels && s.channels[pid] == []
  }

  /** The result of a read, if the event is one, and the system after it. */
  function Happen(s: System, e: Event): (Option<Result<Info>>, System)
    requires Possible(s, e)
  {
    match e
    case Write(pid, info) =>
      var (msg, w) := EncodeInfo(s.writers[pid], info, pid);
      (None, s.(writers := s.writers[pid := w], channels := s.channels[pid := s.channels[pid] + [(info, msg)]]))
    case Reuse(pid) =>
      (None, s.(writers := s.writers[pid := FRESH], behind := s.behind[pid := FRESH]))
    case Read(pid) =>
      var (info, msg) := s.channels[pid][0];
      var w := EncodeInfo(s.behind[pid], info, pid).1;
      var rest := s.(channels := s.channels[pid := s.channels[pid][1..]], behind := s.behind[pid := w]);
      match DecodeInfo(NumbersOf(s, pid), msg)
      case Raised => (Some(Raised), rest)
      case Ok((i, m)) => (Some(Ok(i)), rest.(numbers := s.numbers[pid := m]))
  }

  /** Writing the messages of a channel, one after the other, leads from one writer state to the other. */
  ghost predicate Leads(w: Writer, msgs: seq<(Info, State)>, pid: Pid, w': Writer)
    decreases |msgs|
  {
    if |msgs| == 0 then w == w'
    else
      && IsInfo(msgs[0].0) && msgs[0].1 == EncodeInfo(w, msgs[0].0, pid).0
      && Leads(EncodeInfo(w, msgs[0].0, pid).1, msgs[1..], pid, w')
  }

  lemma {:induction false} LeadsSnoc(w: Writer, msgs: seq<(Info, State)>, pid: Pid, w': Writer, info: Info)
    requires Leads(w, msgs, pid, w') && IsInfo(info)
    ensures Leads(w, msgs + [(info, EncodeInfo(w', info, pid).0)], pid, EncodeInfo(w', info, pid).1)
    decreases |msgs|
  {
    hide EncodeInfo;
    var all := msgs + [(info, EncodeInfo(w', info, pid).0)];
    if |msgs| > 0 {
      LeadsSnoc(EncodeInfo(w, msgs[0].0, pid).1, msgs[1..], pid, w', info);
      assert all[1..] == msgs[1..] + [(info, EncodeInfo(w', info, pid).0)];
    } else {
      assert all[1..] == [];
    }
  }

  /** For every writer, the reader's numbers invert its save map as of the consumed prefix. */
  ghost predicate InStep(s: System, pid: Pid)
    requires pid in s.writers && pid in s.channels && pid in s.behind
  {
    WriterOk(s.behind[pid]) && Inverts(NumbersOf(s, pid), s.behind[pid]) &&
    Leads(s.behind[pid], s.channels[pid], pid, s.writers[pid])
  }

  ghost predicate Inv(s: System) {
    s.channels.Keys == s.writers.Keys == s.behind.Keys && forall pid :: pid in s.writers ==> InStep(s, pid)
  }

  /** The start of a stream: every process has just been reset. */
  function AfterReset(pids: set<Pid>): System {
    System(map p | p in pids :: FRESH, map p | p in pids :: [], map p | p in pids :: FRESH, map[])
  }

  /** One event: a read returns exactly what was written, and every writer stays in step. */
  lemma HappenKeeps(s: System, e: Event)
    requires Inv(s) && Possible(s, e)
    ensures Inv(Happen(s, e).1)
    ensures e.Read? ==> Happen(s, e).0 == Some(Ok(s.channels[e.pid][0].0))
    ensures !e.Read? ==> Happen(s, e).0.None?
  {
    hide EncodeInfo, DecodeInfo, WriterOk, Inverts, Leads;
    var t := Happen(s, e).1;
    assert InStep(s, e.pid);
    match e {
      case Write(pid, info) =>
        LeadsSnoc(s.behind[pid], s.channels[pid], pid, s.writers[pid], info);
      case Read(pid) =>
        LeadsHead(s.behind[pid], s.channels[pid], pid, s.writers[pid]);
        InfoRoundTrip(NumbersOf(s, pid), s.behind[pid], s.channels[pid][0].0, pid);
      case Reuse(pid) =>
        FreshInverted(NumbersOf(s, pid));
        LeadsNothing(pid);
    }
    forall p | p in t.writers
      ensures InStep(t, p)
    {
      if p != e.pid { assert InStep(s, p); }
    }
  }

  lemma LeadsHead(w: Writer, msgs: seq<(Info, State)>, pid: Pid, w': Writer)
    requires Leads(w, msgs, pid, w') && msgs != []
    ensures IsInfo(msgs[0].0) && msgs[0].1 == EncodeInfo(w, msgs[0].0, pid).0
    ensures Leads(EncodeInfo(w, msgs[0].0, pid).1, msgs[1..], pid, w')
  {
  }

  lemma LeadsNothing(pid: Pid)
    ensures Leads(FRESH, [], pid, FRESH)
  {
  }

  lemma FreshInverted(m: Numbers)
    ensures WriterOk(FRESH) && Inverts(m, FRESH)
  {
  }

  /** A run: the results of its reads, next to what had been written at each. */
  ghost predicate Runs(s: System, es: seq<Event>, read: seq<Result<Info>>, written: seq<Info>)
    decreases |es|
  {
    if |es| == 0 then read == [] && written == []
    else
      && Possible(s, es[0])
      && if es[0].Read? then
           && |read| > 0 && |written| > 0 && Happen(s, es[0]).0 == Some(read[0])
           && s.channels[es[0].pid][0].0 == written[0]
           && Runs(Happen(s, es[0]).1, es[1..], read[1..], written[1..])
         else Runs(Happen(s, es[0]).1, es[1..], read, written)
  }

  lemma {:induction false} RunsReadBack(s: System, es: seq<Event>, read: seq<Result<Info>>, written: seq<Info>)
    requires Inv(s) && Runs(s, es, read, written)
    ensures |read| == |written| && forall i :: 0 <= i < |read| ==> read[i] == Ok(written[i])
    decreases |es|
  {
    hide Happen, Inv;
    if |es| > 0 {
      HappenKeeps(s, es[0]);
      if es[0].Read? {
        RunsReadBack(Happen(s, es[0]).1, es[1..], read[1..], written[1..]);
        assert read == [read[0]] + read[1..] && written == [written[0]] + written[1..];
      } else {
        RunsReadBack(Happen(s, es[0]).1, es[1..], read, written);
      }
    }
  }

  /**
   However the streams of any number of writers are interleaved, each of them kept in order since
   the last reset, `__setstate__` gives back exactly what was given to `__getstate__`. A pid may be
   used again once the stream of its first owner has been consumed.
   */
  lemma ReadersGetWhatWritersWrote(pids: set<Pid>, es: seq<Event>, read: seq<Result<Info>>, written: seq<Info>)
    requires Runs(AfterReset(pids), es, read, written)
    ensures |read| == |written| && forall i :: 0 <= i < |read| ==> read[i] == Ok(written[i])
  {
    var s := AfterReset(pids);
    forall p | p in s.writers
      ensures InStep(s, p)
    {
      FreshInverted(NumbersOf(s, p));
    }
    RunsReadBack(s, es, read, written);
  }

  /** A reset of the reader in the middle of a stream loses the numbers: the second use of a value raises. */
  lemma ResetInMidStreamRaises(b: Blob)
    ensures var d := Some([Dep("A", Some(b))]);
      var w1 := EncodeDeps(FRESH, d).1;
      DecodeDeps(map[], EncodeDeps(w1, d).0).Raised?
  {
    var d := [Dep("A", Some(b))];
    var w1 := Encode(FRESH, d).1;
    assert d[1..] == [];
    assert Encode(EncodeOne(FRESH, d[0]).1, d[1..]).1 == EncodeOne(FRESH, d[0]).1;
    assert w1.ids == map[b := 1];
    assert Encode(w1, d).0 == [Triple("A", None, Some(1))];
  }
}
