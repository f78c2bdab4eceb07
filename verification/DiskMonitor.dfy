/** The disk monitor, which warns at a limited rate and asks the run queue to stop. */
module DiskMonitor {
  import opened Wrappers

  datatype Action = HALT | STOPTASKS | WARN

  datatype Key = Key(path: string, action: Action)

  /** The least free space and free inodes; 0 stands for None. */
  datatype Limits = Limits(minSpace: nat, minInode: nat)

  /** What `statvfs` says of one path: `f_bavail * f_frsize`, `f_favail` and `f_files`. */
  datatype Stat = Stat(freeSpace: nat, freeInode: int, files: int)

  datatype Kind = Space | Inode

  /** A logged warning, or a call of `finish_runqueue` with the DiskFull event that follows it. */
  datatype Event = Warning(kind: Kind, free: int) | Finish(kind: Kind, halt: bool)

  /** What the monitor remembers of one key. */
  datatype Memory = Memory(preFreeS: int, preFreeI: int, checked: bool, minInode: nat)

  datatype Intervals = Intervals(space: nat, inode: nat)

  function Fresh(limits: Limits): Memory { Memory(0, 0, false, limits.minInode) }

  /** The two counts that mean that a filesystem makes inodes as it needs them. */
  predicate Dynamic(st: Stat) { st.files == 0 || st.freeInode == -1 }

  /** Whether a low value is warned of; `or` binds weaker than `and`. */
  predicate Warns(pre: int, free: int, interval: nat, checked: bool) {
    pre == 0 || (pre - free > interval && !checked)
  }

  function Act(action: Action, kind: Kind, free: int, warns: bool, checked: bool): seq<Event> {
    (if warns then [Warning(kind, free)] else [])
    + if action != WARN && !checked then [Finish(kind, action == HALT)] else []
  }

  // ----- one key over a run of checks -----

  function SpaceStep(action: Action, minSpace: nat, interval: nat, m: Memory, free: int): (Memory, seq<Event>) {
    if minSpace == 0 || free >= minSpace then (m, [])
    else
      var w := Warns(m.preFreeS, free, interval, m.checked);
      (m.(preFreeS := if w then free else m.preFreeS, checked := m.checked || action != WARN),
       Act(action, Space, free, w, m.checked))
  }

  function InodeStep(action: Action, interval: nat, m: Memory, st: Stat): (Memory, seq<Event>) {
    if m.minInode == 0 || st.freeInode >= m.minInode then (m, [])
    else if Dynamic(st) then (m.(minInode := 0), [])
    else
      var w := Warns(m.preFreeI, st.freeInode, interval, m.checked);
      (m.(preFreeI := if w then st.freeInode else m.preFreeI, checked := m.checked || action != WARN),
       Act(action, Inode, st.freeInode, w, m.checked))
  }

  function Step(action: Action, minSpace: nat, iv: Intervals, m: Memory, st: Stat): (Memory, seq<Event>) {
    var (m1, es) := SpaceStep(action, minSpace, iv.space, m, st.freeSpace);
    var (m2, fs) := InodeStep(action, iv.inode, m1, st);
    (m2, es + fs)
  }

  function Run(action: Action, minSpace: nat, iv: Intervals, m: Memory, sts: seq<Stat>): (Memory, seq<Event>)
    decreases |sts|
  {
    if |sts| == 0 then (m, [])
    else
      var (m1, es) := Step(action, minSpace, iv, m, sts[0]);
      var (m2, fs) := Run(action, minSpace, iv, m1, sts[1..]);
      (m2, es + fs)
  }

  function Warnings(es: seq<Event>, kind: Kind): nat {
    if |es| == 0 then 0 else (if es[0].Warning? && es[0].kind == kind then 1 else 0) + Warnings(es[1..], kind)
  }

  function Finishes(es: seq<Event>): nat {
    if |es| == 0 then 0 else (if es[0].Finish? then 1 else 0) + Finishes(es[1..])
  }

  lemma {:induction false} CountsAdd(es: seq<Event>, fs: seq<Event>)
    ensures forall kind :: Warnings(es + fs, kind) == Warnings(es, kind) + Warnings(fs, kind)
    ensures Finishes(es + fs) == Finishes(es) + Finishes(fs)
  {
    if |es| == 0 {
      assert es + fs == fs;
    } else {
      assert (es + fs)[1..] == es[1..] + fs;
      CountsAdd(es[1..], fs);
    }
  }

  lemma ActCounts(action: Action, kind: Kind, free: int, warns: bool, checked: bool)
    ensures var es := Act(action, kind, free, warns, checked);
            && Warnings(es, kind) == (if warns then 1 else 0)
            && Warnings(es, if kind == Space then Inode else Space) == 0
            && Finishes(es) == if action != WARN && !checked then 1 else 0
  {
    CountsAdd(if warns then [Warning(kind, free)] else [],
        if action != WARN && !checked then [Finish(kind, action == HALT)] else []);
  }

  lemma StepCounts(action: Action, minSpace: nat, iv: Intervals, m: Memory, st: Stat)
    ensures var (m', es) := Step(action, minSpace, iv, m, st);
            var low := minSpace > 0 && st.freeSpace < minSpace;
            && Warnings(es, Space) == (if low && Warns(m.preFreeS, st.freeSpace, iv.space, m.checked) then 1 else 0)
            && m'.preFreeS == (if Warnings(es, Space) == 1 then st.freeSpace else m.preFreeS)
            && Finishes(es) == (if Stops(action, minSpace, m, st) then 1 else 0)
            && (m'.checked <==> m.checked || Stops(action, minSpace, m, st))
            && (Warnings(es, Inode) > 0 ==> Warnings(es, Inode) == 1 && m'.preFreeI == st.freeInode < m.minInode)
            && (Warnings(es, Inode) > 0 ==> m.preFreeI == 0 || m.preFreeI - st.freeInode > iv.inode)
            && (Warnings(es, Inode) == 0 ==> m'.preFreeI == m.preFreeI) && m'.minInode <= m.minInode
  {
    var (m1, es) := SpaceStep(action, minSpace, iv.space, m, st.freeSpace);
    var (m2, fs) := InodeStep(action, iv.inode, m1, st);
    CountsAdd(es, fs);
    ActCounts(action, Space, st.freeSpace, Warns(m.preFreeS, st.freeSpace, iv.space, m.checked), m.checked);
    ActCounts(action, Inode, st.freeInode, Warns(m1.preFreeI, st.freeInode, iv.inode, m1.checked), m1.checked);
  }

  // ----- the bound on warnings -----

  lemma OneMore(n: nat, interval: nat)
    ensures (n + 1) * (interval + 1) == n * (interval + 1) + interval + 1
  {
  }

  /**
   While free space stays above zero, each warning but the first comes at least `interval + 1` below the
   one before it, so there are fewer than `minSpace / interval + 1` of them however the space moves.
   */
  lemma {:induction false} SpaceWarningsFrom(
      action: Action, minSpace: nat, iv: Intervals, m: Memory, sts: seq<Stat>)
    requires m.preFreeS >= 0 && forall st <- sts :: st.freeSpace > 0
    ensures var (m', es) := Run(action, minSpace, iv, m, sts);
            var n := Warnings(es, Space);
            && m'.preFreeS >= 0
            && (m.preFreeS > 0 ==> m'.preFreeS > 0 && n * (iv.space + 1) + m'.preFreeS <= m.preFreeS)
            && (m.preFreeS == 0 && n > 0 ==> m'.preFreeS > 0 && (n - 1) * (iv.space + 1) + m'.preFreeS < minSpace)
    decreases |sts|
  {
    if |sts| > 0 {
      var (m1, es) := Step(action, minSpace, iv, m, sts[0]);
      var (m2, fs) := Run(action, minSpace, iv, m1, sts[1..]);
      StepCounts(action, minSpace, iv, m, sts[0]);
      assert sts[0] in sts;
      SpaceWarningsFrom(action, minSpace, iv, m1, sts[1..]);
      CountsAdd(es, fs);
      OneMore(Warnings(fs, Space), iv.space);
    }
  }

  lemma Distribute(n: nat, interval: nat)
    ensures n * (interval + 1) == n * interval + n
  {
  }

  lemma SpaceWarningsBounded(action: Action, limits: Limits, iv: Intervals, sts: seq<Stat>)
    requires forall st <- sts :: st.freeSpace > 0
    ensures var n := Warnings(Run(action, limits.minSpace, iv, Fresh(limits), sts).1, Space);
            n > 0 ==> (n - 1) * iv.space < limits.minSpace && (n - 1) * (iv.space + 1) + 1 < limits.minSpace
  {
    SpaceWarningsFrom(action, limits.minSpace, iv, Fresh(limits), sts);
    var n := Warnings(Run(action, limits.minSpace, iv, Fresh(limits), sts).1, Space);
    if n > 0 { Distribute(n - 1, iv.space); }
  }

  /** The bound is lost at zero: a disk with no free space is warned of at every check. */
  lemma {:induction false} FullDiskWarnsEveryTime(
      action: Action, minSpace: nat, iv: Intervals, m: Memory, sts: seq<Stat>)
    requires m.preFreeS == 0 && minSpace > 0 && forall st <- sts :: st.freeSpace == 0
    ensures Warnings(Run(action, minSpace, iv, m, sts).1, Space) == |sts|
    decreases |sts|
  {
    if |sts| > 0 {
      var (m1, es) := Step(action, minSpace, iv, m, sts[0]);
      StepCounts(action, minSpace, iv, m, sts[0]);
      assert sts[0] in sts;
      FullDiskWarnsEveryTime(action, minSpace, iv, m1, sts[1..]);
      CountsAdd(es, Run(action, minSpace, iv, m1, sts[1..]).1);
    }
  }

  function Zeros(sts: seq<Stat>): nat {
    if |sts| == 0 then 0 else (if sts[0].freeSpace == 0 then 1 else 0) + Zeros(sts[1..])
  }

  /** How often d fits into x: the whole part of x / d. */
  function Fits(x: nat, d: nat): (r: nat)
    requires d > 0
    ensures r * d <= x < r * d + d
    decreases x
  {
    if x < d then 0 else 1 + Fits(x - d, d)
  }

  /** The warnings at positive free space that fit below `minSpace`, each more than the interval below the last. */
  function Most(minSpace: nat, interval: nat): nat {
    if minSpace < 2 then 0 else 1 + Fits(minSpace - 2, interval + 1)
  }

  /** The warnings at positive free space that still fit below the last one; zero forgets it. */
  function Room(minSpace: nat, interval: nat, last: nat): nat {
    if last == 0 then Most(minSpace, interval) else Fits(last - 1, interval + 1)
  }

  lemma {:induction false} FitsMonotone(a: nat, b: nat, d: nat)
    requires d > 0 && a <= b
    ensures Fits(a, d) <= Fits(b, d)
    decreases a
  {
    if a >= d { FitsMonotone(a - d, b - d, d); }
  }

  lemma RoomShrinks(minSpace: nat, interval: nat, last: nat, free: nat)
    requires 0 < free < minSpace && (last == 0 || last - free > interval)
    ensures Room(minSpace, interval, free) + 1 <= Room(minSpace, interval, last)
  {
    FitsMonotone(free - 1, if last == 0 then minSpace - 2 else last - 1 - (interval + 1), interval + 1);
  }

  /** The bound for every run: each reading of zero adds a warning and makes room for all the others again. */
  lemma {:induction false} WarningsWithZeros(action: Action, minSpace: nat, iv: Intervals, m: Memory, sts: seq<Stat>)
    requires m.preFreeS >= 0 && forall st <- sts :: st.freeSpace >= 0
    ensures Warnings(Run(action, minSpace, iv, m, sts).1, Space)
         <= Zeros(sts) * (1 + Most(minSpace, iv.space)) + Room(minSpace, iv.space, m.preFreeS)
    decreases |sts|
  {
    hide Step, Most, Room;
    if |sts| > 0 {
      var (m1, es) := Step(action, minSpace, iv, m, sts[0]);
      var (m2, fs) := Run(action, minSpace, iv, m1, sts[1..]);
      StepCounts(action, minSpace, iv, m, sts[0]);
      assert sts[0] in sts;
      WarningsWithZeros(action, minSpace, iv, m1, sts[1..]);
      CountsAdd(es, fs);
      var free := sts[0].freeSpace;
      if free == 0 {
        OneZero(Zeros(sts[1..]), Most(minSpace, iv.space));
        RoomAtZero(minSpace, iv.space);
      } else if Warnings(es, Space) == 1 {
        RoomShrinks(minSpace, iv.space, m.preFreeS, free);
      }
    }
  }

  /** The bound for a new monitor that has seen `zeros` readings of zero. */
  function AtMost(minSpace: nat, interval: nat, zeros: nat): nat {
    zeros * (1 + Most(minSpace, interval)) + Most(minSpace, interval)
  }

  lemma OneZero(z: nat, most: nat)
    ensures (z + 1) * (1 + most) == z * (1 + most) + 1 + most
  {
  }

  lemma RoomAtZero(minSpace: nat, interval: nat)
    ensures Room(minSpace, interval, 0) == Most(minSpace, interval)
  {
  }

  /** The same bound for inodes. */
  lemma {:induction false} InodeWarningsFrom(
      action: Action, minSpace: nat, iv: Intervals, m: Memory, sts: seq<Stat>)
    requires m.preFreeI >= 0 && forall st <- sts :: st.freeInode > 0
    ensures var (m', es) := Run(action, minSpace, iv, m, sts);
            var n := Warnings(es, Inode);
            && m'.preFreeI >= 0
            && (m.preFreeI > 0 ==> m'.preFreeI > 0 && n * (iv.inode + 1) + m'.preFreeI <= m.preFreeI)
            && (m.preFreeI == 0 && n > 0 ==> m'.preFreeI > 0 && (n - 1) * (iv.inode + 1) + m'.preFreeI < m.minInode)
    decreases |sts|
  {
    if |sts| > 0 {
      var (m1, es) := Step(action, minSpace, iv, m, sts[0]);
      var (m2, fs) := Run(action, minSpace, iv, m1, sts[1..]);
      StepCounts(action, minSpace, iv, m, sts[0]);
      assert sts[0] in sts;
      InodeWarningsFrom(action, minSpace, iv, m1, sts[1..]);
      CountsAdd(es, fs);
      OneMore(Warnings(fs, Inode), iv.inode);
    }
  }

  // ----- the run queue is stopped once -----

  /** A check that finds too little of either, under an action that stops, when none did before. */
  predicate Stops(action: Action, minSpace: nat, m: Memory, st: Stat) {
    action != WARN && !m.checked && Low(minSpace, m.minInode, st)
  }

  predicate Low(minSpace: nat, minInode: nat, st: Stat) {
    (minSpace > 0 && st.freeSpace < minSpace) || (minInode > 0 && st.freeInode < minInode && !Dynamic(st))
  }

  /** Over any run, `finish_runqueue` is asked for at most once, space and inodes together. */
  lemma {:induction false} FinishesFrom(action: Action, minSpace: nat, iv: Intervals, m: Memory, sts: seq<Stat>)
    ensures var (m', es) := Run(action, minSpace, iv, m, sts);
            && (m.checked || action == WARN ==> Finishes(es) == 0)
            && Finishes(es) <= 1
            && (m'.checked <==> m.checked || Finishes(es) == 1)
    decreases |sts|
  {
    if |sts| > 0 {
      var (m1, es) := Step(action, minSpace, iv, m, sts[0]);
      StepCounts(action, minSpace, iv, m, sts[0]);
      FinishesFrom(action, minSpace, iv, m1, sts[1..]);
      CountsAdd(es, Run(action, minSpace, iv, m1, sts[1..]).1);
    }
  }

  /** It is asked for exactly when the action stops builds and some check found too little. */
  lemma {:induction false} FinishIff(action: Action, minSpace: nat, iv: Intervals, m: Memory, sts: seq<Stat>)
    requires action != WARN && !m.checked
    ensures Finishes(Run(action, minSpace, iv, m, sts).1) == 1
       <==> exists i :: 0 <= i < |sts| && Low(minSpace, Run(action, minSpace, iv, m, sts[..i]).0.minInode, sts[i])
    decreases |sts|
  {
    if |sts| > 0 {
      var (m1, es) := Step(action, minSpace, iv, m, sts[0]);
      StepCounts(action, minSpace, iv, m, sts[0]);
      CountsAdd(es, Run(action, minSpace, iv, m1, sts[1..]).1);
      FinishesFrom(action, minSpace, iv, m1, sts[1..]);
      assert Run(action, minSpace, iv, m, sts[..0]).0 == m;
      forall i | 0 <= i < |sts| - 1
        ensures Run(action, minSpace, iv, m, sts[..i + 1]).0 == Run(action, minSpace, iv, m1, sts[1..][..i]).0
      {
        assert sts[..i + 1][1..] == sts[1..][..i];
      }
      if !m1.checked {
        FinishIff(action, minSpace, iv, m1, sts[1..]);
        if i :| 0 <= i < |sts| && Low(minSpace, Run(action, minSpace, iv, m, sts[..i]).0.minInode, sts[i]) {
          assert i > 0 && sts[i] == sts[1..][i - 1];
          assert Run(action, minSpace, iv, m, sts[..i - 1 + 1]).0 == Run(action, minSpace, iv, m1, sts[1..][..i - 1]).0;
        }
        var rest := sts[1..];
        if i :| 0 <= i < |rest| && Low(minSpace, Run(action, minSpace, iv, m1, rest[..i]).0.minInode, rest[i]) {
          assert Low(minSpace, Run(action, minSpace, iv, m, sts[..i + 1]).0.minInode, sts[i + 1]);
        }
      }
    }
  }

  // ----- the monitor -----

  function Tagged(k: Key, es: seq<Event>): seq<(Key, Event)> {
    if |es| == 0 then [] else Tagged(k, es[..|es| - 1]) + [(k, es[|es| - 1])]
  }

  function EventsOf(log: seq<(Key, Event)>, k: Key): seq<Event> {
    if |log| == 0 then []
    else
      var e := log[|log| - 1];
      EventsOf(log[..|log| - 1], k) + if e.0 == k then [e.1] else []
  }

  lemma {:induction false} TaggedEvents(log: seq<(Key, Event)>, k: Key, es: seq<Event>)
    ensures EventsOf(log + Tagged(k, es), k) == EventsOf(log, k) + es
    ensures forall j :: j != k ==> EventsOf(log + Tagged(k, es), j) == EventsOf(log, j)
  {
    if |es| == 0 {
      assert log + Tagged(k, es) == log;
    } else {
      var all := log + Tagged(k, es);
      assert all[..|all| - 1] == log + Tagged(k, es[..|es| - 1]);
      TaggedEvents(log, k, es[..|es| - 1]);
    }
  }

  lemma {:induction false} TaggedAppend(k: Key, es: seq<Event>, fs: seq<Event>)
    ensures Tagged(k, es + fs) == Tagged(k, es) + Tagged(k, fs)
  {
    if |fs| == 0 {
      assert es + fs == es;
    } else {
      assert (es + fs)[..|es + fs| - 1] == es + fs[..|fs| - 1];
      TaggedAppend(k, es, fs[..|fs| - 1]);
    }
  }

  /** What one path showed at each check. */
  function Samples(stats: seq<map<Key, Stat>>, k: Key): (sts: seq<Stat>)
    requires forall s <- stats :: k in s
    ensures |sts| == |stats| && forall i :: 0 <= i < |sts| ==> sts[i] == stats[i][k]
  {
    seq(|stats|, i requires 0 <= i < |stats| => stats[i][k])
  }

  class Monitor {
    const enableMonitor: bool
    const intervals: Intervals
    const keys: seq<Key>
    const limits: map<Key, Limits>
    var devDict: map<Key, Limits>
    var preFreeS: map<Key, int>
    var preFreeI: map<Key, int>
    var checked: map<Key, bool>
    var log: seq<(Key, Event)>

    ghost predicate Valid()
      reads this
    {
      && (forall i, j :: 0 <= i < j < |keys| ==> keys[i] != keys[j])
      && (forall k <- keys :: Known(k))
    }

    ghost predicate Known(k: Key)
      reads this
    {
      k in limits && k in devDict && k in preFreeS && k in preFreeI && k in checked
      && devDict[k].minSpace == limits[k].minSpace
    }

    ghost function MemoryOf(k: Key): Memory
      requires Known(k)
      reads this
    {
      Memory(preFreeS[k], preFreeI[k], checked[k], devDict[k].minInode)
    }

    /** `__init__`; `keys` are the keys of the configured directories in order, an interval of 0 stands for None. */
    constructor (limits: map<Key, Limits>, keys: seq<Key>, intervals: Intervals)
      requires forall k <- keys :: k in limits
      requires forall i, j :: 0 <= i < j < |keys| ==> keys[i] != keys[j]
      ensures Valid() && this.limits == limits && this.keys == keys && this.intervals == intervals && log == []
      ensures enableMonitor <==> keys != [] && intervals.space > 0 && intervals.inode > 0
      ensures forall k <- keys :: Known(k) && MemoryOf(k) == Fresh(limits[k])
    {
      this.limits, this.keys, this.intervals, devDict, log := limits, keys, intervals, limits, [];
      enableMonitor := keys != [] && intervals.space > 0 && intervals.inode > 0;
      preFreeS := map k | k in keys :: 0;
      preFreeI := map k | k in keys :: 0;
      checked := map k | k in keys :: false;
    }

    /** What is done for a value that is low, for space and for inodes alike. */
    method Stop(k: Key, kind: Kind)
      requires Valid() && k in keys
      modifies this`checked, this`log
      ensures Valid() && checked == old(checked)[k := old(checked)[k] || k.action != WARN]
      ensures log == old(log) +
        Tagged(k, if k.action != WARN && !old(checked)[k] then [Finish(kind, k.action == HALT)] else [])
    {
      if k.action == STOPTASKS && !checked[k] {
        checked := checked[k := true];
        log := log + [(k, Finish(kind, false))];
      } else if k.action == HALT && !checked[k] {
        checked := checked[k := true];
        log := log + [(k, Finish(kind, true))];
      }
      TaggedOne(k, Finish(kind, k.action == HALT));
      assert checked == old(checked)[k := old(checked)[k] || k.action != WARN];
    }

    method CheckSpace(k: Key, freeSpace: nat)
      requires Valid() && k in keys
      modifies this`preFreeS, this`checked, this`log
      ensures Valid() && Changed(old(preFreeS), preFreeS, k) && Changed(old(checked), checked, k)
      ensures var (m, es) := SpaceStep(k.action, limits[k].minSpace, intervals.space, old(MemoryOf(k)), freeSpace);
              MemoryOf(k) == m && log == old(log) + Tagged(k, es)
    {
      var minSpace := devDict[k].minSpace;
      if minSpace > 0 && freeSpace < minSpace {
        ghost var warns := Warns(preFreeS[k], freeSpace, intervals.space, checked[k]);
        if preFreeS[k] == 0 || (preFreeS[k] - freeSpace > intervals.space && !checked[k]) {
          log := log + [(k, Warning(Space, freeSpace))];
          preFreeS := preFreeS[k := freeSpace];
        }
        ActTagged(k, Space, freeSpace, warns, checked[k]);
        Stop(k, Space);
      }
    }

    /** The inode half, which gives up on a filesystem that makes inodes as it needs them. */
    method CheckInodes(k: Key, st: Stat)
      requires Valid() && k in keys
      modifies this`devDict, this`preFreeI, this`checked, this`log
      ensures Valid() && Changed(old(preFreeI), preFreeI, k) && Changed(old(checked), checked, k)
      ensures Changed(old(devDict), devDict, k)
      ensures var (m, es) := InodeStep(k.action, intervals.inode, old(MemoryOf(k)), st);
              MemoryOf(k) == m && log == old(log) + Tagged(k, es)
    {
      var freeInode, minInode := st.freeInode, devDict[k].minInode;
      if minInode > 0 && freeInode < minInode {
        if st.files == 0 || st.freeInode == -1 {
          devDict := devDict[k := devDict[k].(minInode := 0)];
          return;
        }
        ghost var warns := Warns(preFreeI[k], freeInode, intervals.inode, checked[k]);
        if preFreeI[k] == 0 || (preFreeI[k] - freeInode > intervals.inode && !checked[k]) {
          log := log + [(k, Warning(Inode, freeInode))];
          preFreeI := preFreeI[k := freeInode];
        }
        ActTagged(k, Inode, freeInode, warns, checked[k]);
        Stop(k, Inode);
      }
    }

    /** `check`: each key takes one step of its own and touches no other. */
    method Check(stats: map<Key, Stat>)
      requires Valid() && forall k <- keys :: k in stats
      modifies this`devDict, this`preFreeS, this`preFreeI, this`checked, this`log
      ensures Valid()
      ensures !enableMonitor ==> log == old(log) && forall k <- keys :: MemoryOf(k) == old(MemoryOf(k))
      ensures enableMonitor ==> forall k <- keys :: Stepped(k, old(MemoryOf(k)), old(log), stats[k])
    {
      hide Step, Tagged, EventsOf, InodeStep, SpaceStep;
      if enableMonitor {
        for i := 0 to |keys|
          invariant Valid()
          invariant forall j :: 0 <= j < i ==> Stepped(keys[j], old(MemoryOf(keys[j])), old(log), stats[keys[j]])
          invariant forall j :: i <= j < |keys| ==> Waits(keys[j], old(MemoryOf(keys[j])), old(log))
        {
          CheckOne(keys[i], stats[keys[i]]);
        }
      }
    }

    ghost predicate Stepped(k: Key, m: Memory, was: seq<(Key, Event)>, st: Stat)
      reads this
    {
      Known(k)
      && var (m', es) := Step(k.action, limits[k].minSpace, intervals, m, st);
      MemoryOf(k) == m' && EventsOf(log, k) == EventsOf(was, k) + es
    }

    ghost predicate Waits(k: Key, m: Memory, was: seq<(Key, Event)>)
      reads this
    {
      Known(k) && MemoryOf(k) == m && EventsOf(log, k) == EventsOf(was, k)
    }

    method CheckOne(k: Key, st: Stat)
      requires Valid() && k in keys
      modifies this`devDict, this`preFreeS, this`preFreeI, this`checked, this`log
      ensures Valid() && Stepped(k, old(MemoryOf(k)), old(log), st)
      ensures forall j | j in keys && j != k ::
        MemoryOf(j) == old(MemoryOf(j)) && EventsOf(log, j) == EventsOf(old(log), j)
    {
      hide EventsOf, Tagged, SpaceStep, InodeStep;
      ghost var m0 := MemoryOf(k);
      ghost var (m1, es) := SpaceStep(k.action, limits[k].minSpace, intervals.space, m0, st.freeSpace);
      ghost var (m2, fs) := InodeStep(k.action, intervals.inode, m1, st);
      CheckSpace(k, st.freeSpace);
      CheckInodes(k, st);
      TaggedAppend(k, es, fs);
      assert log == old(log) + Tagged(k, es + fs);
      TaggedEvents(old(log), k, es + fs);
    }
  }

  predicate Changed<V(==)>(was: map<Key, V>, now: map<Key, V>, k: Key) {
    was.Keys == now.Keys && forall j <- was.Keys :: j != k ==> was[j] == now[j]
  }

  lemma TaggedOne(k: Key, e: Event)
    ensures Tagged(k, [e]) == [(k, e)] && Tagged(k, []) == []
  {
    assert [e][..0] == [];
  }

  lemma ActTagged(k: Key, kind: Kind, free: int, warns: bool, checked: bool)
    ensures Tagged(k, Act(k.action, kind, free, warns, checked))
         == (if warns then [(k, Warning(kind, free))] else [])
            + Tagged(k, if k.action != WARN && !checked then [Finish(kind, k.action == HALT)] else [])
  {
    TaggedOne(k, Warning(kind, free));
    TaggedAppend(k, if warns then [Warning(kind, free)] else [],
      if k.action != WARN && !checked then [Finish(kind, k.action == HALT)] else []);
  }

  lemma {:induction false} RunNext(action: Action, minSpace: nat, iv: Intervals, m: Memory, sts: seq<Stat>, st: Stat)
    ensures var (m1, es) := Run(action, minSpace, iv, m, sts);
            var (m2, fs) := Step(action, minSpace, iv, m1, st);
            Run(action, minSpace, iv, m, sts + [st]) == (m2, es + fs)
    decreases |sts|
  {
    hide Step;
    if |sts| == 0 {
      var es := Step(action, minSpace, iv, m, st).1;
      assert sts + [st] == [st] && [st][1..] == [] && [] + es == es == es + [];
    } else {
      assert (sts + [st])[1..] == sts[1..] + [st];
      var (m1, es) := Step(action, minSpace, iv, m, sts[0]);
      var (m2, fs) := Run(action, minSpace, iv, m1, sts[1..]);
      RunNext(action, minSpace, iv, m1, sts[1..], st);
      assert (es + fs) + Step(action, minSpace, iv, m2, st).1 == es + (fs + Step(action, minSpace, iv, m2, st).1);
    }
  }

  /** The monitor stands, for one key, where the checks so far lead. */
  ghost predicate Watched(monitor: Monitor, k: Key, sts: seq<Stat>)
    reads monitor
  {
    && monitor.Known(k)
    && (monitor.MemoryOf(k), EventsOf(monitor.log, k))
       == Run(k.action, monitor.limits[k].minSpace, monitor.intervals, Fresh(monitor.limits[k]), sts)
  }

  lemma WatchedNext(monitor: Monitor, k: Key, sts: seq<Stat>, st: Stat, m: Memory, was: seq<(Key, Event)>)
    requires monitor.Stepped(k, m, was, st)
    requires (m, EventsOf(was, k))
          == Run(k.action, monitor.limits[k].minSpace, monitor.intervals, Fresh(monitor.limits[k]), sts)
    ensures Watched(monitor, k, sts + [st])
  {
    hide Run, Step, EventsOf, Fresh;
    RunNext(k.action, monitor.limits[k].minSpace, monitor.intervals, Fresh(monitor.limits[k]), sts, st);
  }

  lemma WatchedIsBounded(monitor: Monitor, k: Key, sts: seq<Stat>)
    requires Watched(monitor, k, sts)
    ensures Finishes(EventsOf(monitor.log, k)) <= 1
    ensures var n := Warnings(EventsOf(monitor.log, k), Space);
            && n <= AtMost(monitor.limits[k].minSpace, monitor.intervals.space, Zeros(sts))
            && ((forall st <- sts :: st.freeSpace > 0) && n > 0 ==>
                 (n - 1) * monitor.intervals.space < monitor.limits[k].minSpace)
  {
    hide Run, Step, EventsOf, Warnings, Finishes, Most;
    WarningsWithZeros(k.action, monitor.limits[k].minSpace, monitor.intervals, Fresh(monitor.limits[k]), sts);
    FinishesFrom(k.action, monitor.limits[k].minSpace, monitor.intervals, Fresh(monitor.limits[k]), sts);
    if forall st <- sts :: st.freeSpace > 0 {
      SpaceWarningsBounded(k.action, monitor.limits[k], monitor.intervals, sts);
    }
  }

  /** A whole build's worth of checks by a new monitor. */
  method Watch(limits: map<Key, Limits>, keys: seq<Key>, intervals: Intervals, stats: seq<map<Key, Stat>>)
    returns (monitor: Monitor)
    requires forall k <- keys :: k in limits && forall s <- stats :: k in s
    requires forall i, j :: 0 <= i < j < |keys| ==> keys[i] != keys[j]
    ensures monitor.limits == limits && monitor.intervals == intervals
    ensures keys == [] || intervals.space == 0 || intervals.inode == 0 ==> monitor.log == []
    ensures keys != [] && intervals.space > 0 && intervals.inode > 0
         ==> forall k <- keys :: Watched(monitor, k, Samples(stats, k)) && Bounded(monitor, k, stats)
  {
    hide Run, Step, EventsOf, Fresh, Warnings, Finishes, Watched, Bounded, AtMost;
    monitor := new Monitor(limits, keys, intervals);
    forall k <- keys ensures Watched(monitor, k, Samples(stats[..0], k)) { NothingWatched(monitor, k); }
    for n := 0 to |stats|
      invariant fresh(monitor) && monitor.Valid() && monitor.keys == keys && monitor.limits == limits
      invariant monitor.intervals == intervals
      invariant !monitor.enableMonitor ==> monitor.log == []
      invariant monitor.enableMonitor ==> forall k <- keys :: Watched(monitor, k, Samples(stats[..n], k))
    {
      WatchOnce(monitor, stats, n);
    }
    assert stats[..|stats|] == stats;
    if monitor.enableMonitor {
      forall k <- keys ensures Bounded(monitor, k, stats) { BoundedIfWatched(monitor, k, stats); }
    }
  }

  /** What is promised of one key. */
  ghost predicate Bounded(monitor: Monitor, k: Key, stats: seq<map<Key, Stat>>)
    requires k in monitor.limits && forall s <- stats :: k in s
    reads monitor
  {
    var n := Warnings(EventsOf(monitor.log, k), Space);
    && Finishes(EventsOf(monitor.log, k)) <= 1
    && n <= AtMost(monitor.limits[k].minSpace, monitor.intervals.space, Zeros(Samples(stats, k)))
    && ((forall st <- Samples(stats, k) :: st.freeSpace > 0) && n > 0 ==>
         (n - 1) * monitor.intervals.space < monitor.limits[k].minSpace)
  }

  lemma NothingWatched(monitor: Monitor, k: Key)
    requires monitor.Known(k) && monitor.MemoryOf(k) == Fresh(monitor.limits[k]) && monitor.log == []
    ensures Watched(monitor, k, [])
  {
  }

  lemma BoundedIfWatched(monitor: Monitor, k: Key, stats: seq<map<Key, Stat>>)
    requires (forall s <- stats :: k in s) && Watched(monitor, k, Samples(stats, k))
    ensures Bounded(monitor, k, stats)
  {
    hide Run, EventsOf, Fresh, Warnings, Finishes, AtMost;
    WatchedIsBounded(monitor, k, Samples(stats, k));
  }

  method WatchOnce(monitor: Monitor, stats: seq<map<Key, Stat>>, n: nat)
    requires n < |stats| && monitor.Valid() && forall k <- monitor.keys :: forall s <- stats :: k in s
    requires monitor.enableMonitor ==> forall k <- monitor.keys :: Watched(monitor, k, Samples(stats[..n], k))
    modifies monitor`devDict, monitor`preFreeS, monitor`preFreeI, monitor`checked, monitor`log
    ensures monitor.Valid() && (!monitor.enableMonitor ==> monitor.log == old(monitor.log))
    ensures monitor.enableMonitor ==> forall k <- monitor.keys :: Watched(monitor, k, Samples(stats[..n + 1], k))
  {
    hide Run, Step, EventsOf, Fresh, Monitor.Stepped;
    monitor.Check(stats[n]);
    if monitor.enableMonitor {
      forall k <- monitor.keys ensures Watched(monitor, k, Samples(stats[..n + 1], k)) {
        assert Samples(stats[..n + 1], k) == Samples(stats[..n], k) + [stats[n][k]];
        assert old(Watched(monitor, k, Samples(stats[..n], k)));
        WatchedNext(monitor, k, Samples(stats[..n], k), stats[n][k], old(monitor.MemoryOf(k)), old(monitor.log));
      }
    }
  }
}
