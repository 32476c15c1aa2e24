// The caches that parser processes share (cache.py:827-936): every process saves what it has found
// in a file of its own, under a shared lock; merging them happens under the exclusive one.
//
// A step is what one process does between two points at which others can be seen to interfere.
module MultiProcessCache {
  import opened Prelude

  type Pid = nat

  // A list of dictionaries, as `create_cachedata` makes it.
  type Data = seq<map<string, string>>

  // An extras file: complete, or not (yet) readable.
  datatype Extras = Extras(data: Data, version: string) | Unreadable

  // Where a process is in `save_extras`: it wants the lock of file `i`; it has that lock; it has seen
  // that there is no such file; it has opened the file for writing.
  datatype Phase = Idle | Wants(i: nat) | Holds(i: nat) | Clear(i: nat) | Writing(i: nat)

  datatype System = System(
    phases: map<Pid, Phase>,       // of all processes that are not idle; they share the global lock
    locks: map<nat, Pid>,          // who holds the lock of each file
    files: map<nat, Extras>,       // the extras files
    memory: map<Pid, Data>,        // the cache data of each process that has loaded the cache
    disk: Option<Data>,            // the cache file, if there is one of this version
    saved: set<(nat, string)>)     // history: all keys saved, with the number of their dictionary

  // ----- merging -----

  // The entries of `source` whose keys are not there yet are added.
  function MergeDict(source: map<string, string>, dest: map<string, string>): map<string, string> {
    source + dest
  }

  function MergeData(source: Data, dest: Data): Data
    requires |source| >= |dest|
  {
    seq(|dest|, j requires 0 <= j < |dest| => MergeDict(source[j], dest[j]))
  }

  predicate IsValid(e: Extras, version: string, tables: nat) {
    e.Extras? && e.version == version && |e.data| == tables
  }

  // The files in the order in which they are listed.
  function MergeFiles(order: seq<nat>, files: map<nat, Extras>, version: string, data: Data): Data
    decreases |order|
  {
    if order == [] then data
    else
      MergeFiles(order[1..], files, version,
                 if order[0] in files && IsValid(files[order[0]], version, |data|)
                   then MergeData(files[order[0]].data, data) else data)
  }

  predicate Lists(order: seq<nat>, files: map<nat, Extras>) {
    (forall i :: i in order ==> i in files) && (forall i :: i in files ==> i in order)
  }

  // Every file of this version has as many dictionaries as the program of this version makes.
  predicate AllFit(files: map<nat, Extras>, version: string, tables: nat) {
    forall i :: i in files && files[i].Extras? && files[i].version == version ==> |files[i].data| == tables
  }

  predicate SomeValid(files: map<nat, Extras>, version: string, tables: nat) {
    exists i :: i in files && IsValid(files[i], version, tables)
  }

  // ----- the steps -----

  datatype Step =
    | Load(pid: Pid)
    | End(pid: Pid)
    | BeginSave(pid: Pid)
    | TryLock(pid: Pid)
    | CheckFile(pid: Pid)
    | OpenFile(pid: Pid)
    | WriteFile(pid: Pid, data: Data)
    | Crash(pid: Pid)
    | SaveMerge(pid: Pid, order: seq<nat>)

  function PhaseOf(s: System, pid: Pid): Phase {
    if pid in s.phases then s.phases[pid] else Idle
  }

  predicate Enabled(s: System, tables: nat, step: Step) {
    match step
    case Load(pid) => PhaseOf(s, pid) == Idle
    case End(pid) => PhaseOf(s, pid) == Idle
    case BeginSave(pid) => PhaseOf(s, pid) == Idle
    case TryLock(pid) => PhaseOf(s, pid).Wants?
    case CheckFile(pid) => PhaseOf(s, pid).Holds?
    case OpenFile(pid) => PhaseOf(s, pid).Clear?
    case WriteFile(pid, data) => PhaseOf(s, pid).Writing? && |data| == tables
    case Crash(pid) => PhaseOf(s, pid) != Idle
    case SaveMerge(pid, order) => s.phases == map[] && pid in s.memory && Lists(order, s.files)
  }

  function Keys(data: Data): set<(nat, string)> {
    set j: nat, k | j < |data| && k in data[j] :: (j, k)
  }

  // `create_cachedata`
  function NoData(tables: nat): Data {
    seq(tables, _ => map[])
  }

  function Unlock(locks: map<nat, Pid>, pid: Pid): map<nat, Pid> {
    map i | i in locks && locks[i] != pid :: locks[i]
  }

  function After(s: System, version: string, tables: nat, step: Step): System
    requires Enabled(s, tables, step)
  {
    match step
    case Load(pid) => s.(memory := s.memory[pid := if s.disk.Some? then s.disk.value else NoData(tables)])
    case End(pid) => s.(memory := s.memory - {pid})
    case BeginSave(pid) => s.(phases := s.phases[pid := Wants(pid)])
    case TryLock(pid) =>
      var i := PhaseOf(s, pid).i;
      if i in s.locks then s.(phases := s.phases[pid := Wants(i + 1)])
      else s.(phases := s.phases[pid := Holds(i)], locks := s.locks[i := pid])
    case CheckFile(pid) =>
      var i := PhaseOf(s, pid).i;
      if i in s.files then s.(phases := s.phases[pid := Wants(i + 1)], locks := s.locks - {i})
      else s.(phases := s.phases[pid := Clear(i)])
    case OpenFile(pid) =>
      var i := PhaseOf(s, pid).i;
      s.(phases := s.phases[pid := Writing(i)], files := s.files[i := Unreadable])
    case WriteFile(pid, data) =>
      var i := PhaseOf(s, pid).i;
      s.(phases := s.phases - {pid}, locks := s.locks - {i}, files := s.files[i := Extras(data, version)], saved :=
        s.saved + Keys(data))
    case Crash(pid) => s.(phases := s.phases - {pid}, locks := Unlock(s.locks, pid))
    case SaveMerge(pid, order) => AfterMerge(s, version, pid, order)
  }

  // `save_merge`: everything that can be read and has the right version is merged, and every extras
  // file is removed.
  function AfterMerge(s: System, version: string, pid: Pid, order: seq<nat>): System
    requires pid in s.memory && Lists(order, s.files)
  {
    var data := MergeFiles(order, s.files, version, s.memory[pid]);
    s.(files := map[], memory := s.memory[pid := data],
       disk := if SomeValid(s.files, version, |s.memory[pid]|) then Some(data) else s.disk)
  }

  // ----- what holds in every state -----

  // The file that a process has locked.
  function LockedBy(phase: Phase): Option<nat> {
    match phase
    case Holds(i) => Some(i)
    case Clear(i) => Some(i)
    case Writing(i) => Some(i)
    case _ => None
  }

  ghost predicate LocksHeld(s: System) {
    && (forall p :: p in s.phases && LockedBy(s.phases[p]).Some? ==>
          LockedBy(s.phases[p]).value in s.locks && s.locks[LockedBy(s.phases[p]).value] == p)
    && (forall i :: i in s.locks ==> s.locks[i] in s.phases && LockedBy(s.phases[s.locks[i]]) == Some(i))
  }

  // Nobody writes over a file: whoever is about to open it has the lock, and it is not there.
  ghost predicate NothingToOverwrite(s: System) {
    && (forall p :: p in s.phases && s.phases[p].Clear? ==> s.phases[p].i !in s.files)
    && (forall p :: p in s.phases && s.phases[p].Writing? ==>
      s.phases[p].i in s.files && s.files[s.phases[p].i] == Unreadable)
  }

  ghost predicate InFiles(s: System, version: string, tables: nat, k: (nat, string)) {
    exists i :: i in s.files && IsValid(s.files[i], version, tables) && k in Keys(s.files[i].data)
  }

  ghost predicate OnDisk(s: System, k: (nat, string)) {
    s.disk.Some? && k in Keys(s.disk.value)
  }

  // Everything that was ever saved waits in an extras file or is in the cache file.
  ghost predicate NothingLost(s: System, version: string, tables: nat) {
    forall k :: k in s.saved ==> InFiles(s, version, tables, k) || OnDisk(s, k)
  }

  ghost predicate Inv(s: System, version: string, tables: nat) {
    && LocksHeld(s) && NothingToOverwrite(s) && (s.disk.Some? ==> |s.disk.value| == tables)
    && AllFit(s.files, version, tables)
    && (forall p :: p in s.memory ==> |s.memory[p]| == tables)
    && (forall p :: p in s.phases ==> s.phases[p] != Idle)
  }

  // ----- merging loses nothing and changes nothing -----

  // What is merged: keys that are there keep their value, and all keys of both are there.
  lemma {:induction false} MergeKeeps(source: Data, dest: Data)
    requires |source| >= |dest|
    ensures |MergeData(source, dest)| == |dest|
    ensures forall j, k :: 0 <= j < |dest| && k in dest[j] ==>
      k in MergeData(source, dest)[j] && MergeData(source, dest)[j][k] == dest[j][k]
    ensures forall j, k :: 0 <= j < |dest| ==> (k in MergeData(source, dest)[j] <==> k in dest[j] || k in source[j])
  {}

  lemma {:induction false} FilesMerged(order: seq<nat>, files: map<nat, Extras>, version: string, data: Data)
    ensures var merged := MergeFiles(order, files, version, data);
      && |merged| == |data|
      && (forall j, k :: 0 <= j < |data| && k in data[j] ==> k in merged[j] && merged[j][k] == data[j][k])
      && (forall i, j, k ::
            i in order && i in files && IsValid(files[i], version, |data|)
            && 0 <= j < |data| && k in files[i].data[j] ==>
              k in merged[j])
    decreases |order|
  {
    if order != [] {
      var i := order[0];
      if i in files && IsValid(files[i], version, |data|) {
        MergeKeeps(files[i].data, data);
        FilesMerged(order[1..], files, version, MergeData(files[i].data, data));
      } else {
        FilesMerged(order[1..], files, version, data);
      }
      assert order == [order[0]] + order[1..];
    }
  }

  // Every value after a merge was there before it or comes from one of the files.
  lemma {:induction false} NothingInvented(order: seq<nat>, files: map<nat, Extras>, version: string, data: Data)
    ensures var merged := MergeFiles(order, files, version, data);
      |merged| == |data| && forall j, k :: 0 <= j < |data| && k in merged[j] ==>
        (k in data[j] && merged[j][k] == data[j][k]) || FromFile(files, version, |data|, j, k, merged[j][k])
    decreases |order|
  {
    FilesMerged(order, files, version, data);
    if order != [] {
      var i := order[0];
      var next := if i in files && IsValid(files[i], version, |data|) then MergeData(files[i].data, data) else data;
      NothingInvented(order[1..], files, version, next);
      assert forall j, k :: 0 <= j < |data| && k in next[j] ==>
        (k in data[j] && next[j][k] == data[j][k]) || FromFile(files, version, |data|, j, k, next[j][k]);
    }
  }

  ghost predicate FromFile(files: map<nat, Extras>, version: string, tables: nat, j: nat, k: string, v: string) {
    exists i :: i in files && IsValid(files[i], version, tables) && j < tables && k in files[i].data[j]
      && files[i].data[j][k] == v
  }

  // ----- every step keeps the invariant -----

  lemma {:induction false} LocksKept(s: System, version: string, tables: nat, step: Step)
    requires LocksHeld(s) && Enabled(s, tables, step)
    ensures LocksHeld(After(s, version, tables, step))
  {}

  lemma {:induction false} OverwriteKept(s: System, version: string, tables: nat, step: Step)
    requires Inv(s, version, tables) && Enabled(s, tables, step)
    ensures NothingToOverwrite(After(s, version, tables, step))
  {
    var t := After(s, version, tables, step);
    forall p | p in t.phases && t.phases[p].Clear? ensures t.phases[p].i !in t.files {
      assert p in s.phases;
      assert step.OpenFile? || step.WriteFile? ==>
        p != step.pid && LockedBy(s.phases[p]) != LockedBy(s.phases[step.pid]);
    }
    forall p | p in t.phases && t.phases[p].Writing?
      ensures t.phases[p].i in t.files && t.files[t.phases[p].i] == Unreadable {
      assert p in s.phases;
      assert (step.OpenFile? || step.WriteFile?) && p != step.pid ==>
        LockedBy(s.phases[p]) != LockedBy(s.phases[step.pid]);
    }
  }

  // `save_merge` does not read the cache file again. It writes over what is there, and keeps it if and
  // only if the merging process had it in memory or finds it in the extras files.
  ghost predicate Covers(s: System, version: string, tables: nat, pid: Pid)
    requires pid in s.memory
  {
    SomeValid(s.files, version, tables) ==>
      forall k :: OnDisk(s, k) ==> k in Keys(s.memory[pid]) || InFiles(s, version, tables, k)
  }

  lemma {:induction false} MergeKeepsDiskIff(s: System, version: string, tables: nat, pid: Pid, order: seq<nat>)
    requires Inv(s, version, tables) && Enabled(s, tables, SaveMerge(pid, order))
    ensures Covers(s, version, tables, pid) <==>
      forall k :: InFiles(s, version, tables, k) || OnDisk(s, k) ==> OnDisk(AfterMerge(s, version, pid, order), k)
  {
    var t := AfterMerge(s, version, pid, order);
    if SomeValid(s.files, version, tables) {
      forall k ensures OnDisk(t, k) <==> k in Keys(s.memory[pid]) || InFiles(s, version, tables, k) {
        MergedKeys(s, version, tables, pid, order, k);
      }
    } else {
      assert forall k :: !InFiles(s, version, tables, k);
    }
  }

  lemma {:induction false} MergedKeys(s: System, version: string, tables: nat, pid: Pid, order: seq<nat>,
                                      k: (nat, string))
    requires Inv(s, version, tables) && Enabled(s, tables, SaveMerge(pid, order))
    ensures k in Keys(AfterMerge(s, version, pid, order).memory[pid]) <==>
      k in Keys(s.memory[pid]) || InFiles(s, version, tables, k)
  {
    FilesMerged(order, s.files, version, s.memory[pid]);
    NothingInvented(order, s.files, version, s.memory[pid]);
    if InFiles(s, version, tables, k) {
      var i :| i in s.files && IsValid(s.files[i], version, tables) && k in Keys(s.files[i].data);
      assert i in order;
    }
  }

  // A step loses something that was saved only if it is a merge that does not cover the cache file.
  lemma {:induction false} SavedKept(s: System, version: string, tables: nat, step: Step)
    requires Inv(s, version, tables) && NothingLost(s, version, tables) && Enabled(s, tables, step)
    requires step.SaveMerge? ==> Covers(s, version, tables, step.pid)
    ensures NothingLost(After(s, version, tables, step), version, tables)
  {
    var t := After(s, version, tables, step);
    if step.SaveMerge? {
      MergeKeepsDiskIff(s, version, tables, step.pid, step.order);
    } else {
      forall k | k in t.saved ensures InFiles(t, version, tables, k) || OnDisk(t, k) {
        if step.WriteFile? && k in Keys(step.data) {
          var i := s.phases[step.pid].i;
          assert t.files[i] == Extras(step.data, version) && IsValid(t.files[i], version, tables);
        } else if InFiles(s, version, tables, k) {
          var j :| j in s.files && IsValid(s.files[j], version, tables) && k in Keys(s.files[j].data);
          assert t.files[j] == s.files[j];
        }
      }
    }
  }

  lemma {:induction false} StepKeeps(s: System, version: string, tables: nat, step: Step)
    requires Inv(s, version, tables) && Enabled(s, tables, step)
    ensures Inv(After(s, version, tables, step), version, tables)
  {
    LocksKept(s, version, tables, step);
    OverwriteKept(s, version, tables, step);
    if step.SaveMerge? {
      FilesMerged(step.order, s.files, version, s.memory[step.pid]);
    }
    hide LocksHeld, NothingToOverwrite;
  }

  // ----- the theorems -----

  ghost predicate Reaches(s: System, version: string, tables: nat, steps: seq<Step>, t: System)
    decreases |steps|
  {
    if steps == [] then s == t
    else Enabled(s, tables, steps[0]) && Reaches(After(s, version, tables, steps[0]), version, tables, steps[1..], t)
  }

  // A cache directory as it is found, with files left over: nobody is at work.
  ghost predicate Fresh(s: System, version: string, tables: nat) {
    && s.phases == map[] && s.locks == map[] && s.saved == {}
    && AllFit(s.files, version, tables)
    && (forall p :: p in s.memory ==> |s.memory[p]| == tables)
    && (s.disk.Some? ==> |s.disk.value| == tables)
  }

  lemma {:induction false} RunKeeps(s: System, version: string, tables: nat, steps: seq<Step>, t: System)
    requires Inv(s, version, tables) && Reaches(s, version, tables, steps, t)
    ensures Inv(t, version, tables)
    decreases |steps|
  {
    if steps != [] {
      StepKeeps(s, version, tables, steps[0]);
      RunKeeps(After(s, version, tables, steps[0]), version, tables, steps[1..], t);
    }
  }

  // With any number of processes saving and merging: no two of them ever write the same file, and a
  // file that is opened for writing is not there yet.
  lemma {:induction false} RunsAreSafe(s: System, version: string, tables: nat, steps: seq<Step>, t: System)
    requires Fresh(s, version, tables) && Reaches(s, version, tables, steps, t)
    ensures forall p, q ::
      p in t.phases && q in t.phases && t.phases[p].Writing? && t.phases[q].Writing?
      && t.phases[p].i == t.phases[q].i ==>
        p == q
    ensures forall p :: Enabled(t, tables, OpenFile(p)) ==> t.phases[p].i !in t.files
  {
    RunKeeps(s, version, tables, steps, t);
    forall p, q | p in t.phases && q in t.phases && t.phases[p].Writing? && t.phases[q].Writing?
      && t.phases[p].i == t.phases[q].i
      ensures p == q
    {
      assert LockedBy(t.phases[p]) == LockedBy(t.phases[q]);
    }
    forall p | Enabled(t, tables, OpenFile(p)) ensures t.phases[p].i !in t.files {
      assert t.phases[p].Clear?;
    }
  }

  // Every merge of the run covers the cache file.
  ghost predicate AllCover(s: System, version: string, tables: nat, steps: seq<Step>)
    decreases |steps|
  {
    steps == [] ||
    (Enabled(s, tables, steps[0]) && (steps[0].SaveMerge? ==> Covers(s, version, tables, steps[0].pid))
     && AllCover(After(s, version, tables, steps[0]), version, tables, steps[1..]))
  }

  // Then everything that was ever saved is in an extras file or in the cache file, whatever processes
  // crash or end.
  lemma {:induction false} RunsLoseNothing(s: System, version: string, tables: nat, steps: seq<Step>, t: System)
    requires Inv(s, version, tables) && NothingLost(s, version, tables)
    requires Reaches(s, version, tables, steps, t) && AllCover(s, version, tables, steps)
    ensures NothingLost(t, version, tables)
    decreases |steps|
  {
    if steps != [] {
      StepKeeps(s, version, tables, steps[0]);
      SavedKept(s, version, tables, steps[0]);
      RunsLoseNothing(After(s, version, tables, steps[0]), version, tables, steps[1..], t);
    }
  }

  // One process that has loaded the cache and does all the merging covers the cache file all along.
  predicate OnlyMerger(steps: seq<Step>, pid: Pid) {
    forall step :: step in steps ==> (step.SaveMerge? ==> step.pid == pid) && step != End(pid)
  }

  lemma {:induction false} OneMergerCovers(s: System, version: string, tables: nat, steps: seq<Step>, t: System,
                                           pid: Pid)
    requires Inv(s, version, tables) && Reaches(s, version, tables, steps, t) && OnlyMerger(steps, pid)
    requires pid in s.memory && (s.disk.Some? ==> Keys(s.disk.value) <= Keys(s.memory[pid]))
    ensures AllCover(s, version, tables, steps)
    decreases |steps|
  {
    hide Inv, Covers;
    if steps != [] {
      var step := steps[0];
      assert step in steps;
      var next := After(s, version, tables, step);
      StepKeeps(s, version, tables, step);
      if step.SaveMerge? {
        HasAllCovers(s, version, tables, pid);
        MemoryHasAll(s, version, tables, pid, step.order);
      }
      OneMergerCovers(next, version, tables, steps[1..], t, pid);
    }
  }

  lemma HasAllCovers(s: System, version: string, tables: nat, pid: Pid)
    requires pid in s.memory && (s.disk.Some? ==> Keys(s.disk.value) <= Keys(s.memory[pid]))
    ensures Covers(s, version, tables, pid)
  {}

  lemma {:induction false} MemoryHasAll(s: System, version: string, tables: nat, pid: Pid, order: seq<nat>)
    requires Inv(s, version, tables) && Enabled(s, tables, SaveMerge(pid, order))
    requires s.disk.Some? ==> Keys(s.disk.value) <= Keys(s.memory[pid])
    ensures var t := AfterMerge(s, version, pid, order); t.disk.Some? ==> Keys(t.disk.value) <= Keys(t.memory[pid])
  {
    forall k | k in Keys(s.memory[pid]) ensures k in Keys(AfterMerge(s, version, pid, order).memory[pid]) {
      MergedKeys(s, version, tables, pid, order, k);
    }
  }

  // All steps of saving under a number that nobody uses.
  function Saving(pid: Pid, data: Data): seq<Step> {
    [BeginSave(pid), TryLock(pid), CheckFile(pid), OpenFile(pid), WriteFile(pid, data)]
  }

  lemma {:induction false} ReachesBoth(s: System, version: string, tables: nat, some: seq<Step>, t: System,
                                       more: seq<Step>, u: System)
    requires Reaches(s, version, tables, some, t) && Reaches(t, version, tables, more, u)
    ensures Reaches(s, version, tables, some + more, u)
    decreases |some|
  {
    if some == [] {
      assert some + more == more;
    } else {
      assert (some + more)[1..] == some[1..] + more;
      ReachesBoth(After(s, version, tables, some[0]), version, tables, some[1..], t, more, u);
    }
  }

  lemma {:induction false} ReachesStep(s: System, version: string, tables: nat, step: Step)
    requires Enabled(s, tables, step)
    ensures Reaches(s, version, tables, [step], After(s, version, tables, step))
  {
    assert [step][1..] == [];
  }

  // What is left to pass by from number `i` on.
  ghost function Taken(s: System, i: nat): set<nat> {
    set j | j in s.locks.Keys + s.files.Keys && j >= i
  }

  // From number `i` on, `j` is the first that is neither locked nor has a file.
  ghost predicate FirstFree(s: System, i: nat, j: nat) {
    && i <= j && j !in s.locks && j !in s.files
    && forall k :: i <= k < j ==> k in s.locks || k in s.files
  }

  // The process passes number `i` by when another one has its lock or there is a file.
  lemma {:induction false} PassesBy(s: System, version: string, tables: nat, pid: Pid, i: nat)
      returns (steps: seq<Step>)
    requires PhaseOf(s, pid) == Wants(i) && (i in s.locks || i in s.files)
    ensures Reaches(s, version, tables, steps, s.(phases := s.phases[pid := Wants(i + 1)]))
    ensures forall step :: step in steps ==> step.pid == pid
  {
    var next := s.(phases := s.phases[pid := Wants(i + 1)]);
    if i in s.locks {
      steps := [TryLock(pid)];
      ReachesStep(s, version, tables, TryLock(pid));
    } else {
      var mid := s.(phases := s.phases[pid := Holds(i)], locks := s.locks[i := pid]);
      assert mid.phases[pid := Wants(i + 1)] == next.phases && mid.locks - {i} == s.locks;
      ReachesStep(s, version, tables, TryLock(pid));
      ReachesStep(mid, version, tables, CheckFile(pid));
      steps := [TryLock(pid)] + [CheckFile(pid)];
      ReachesBoth(s, version, tables, [TryLock(pid)], mid, [CheckFile(pid)], next);
    }
  }

  // It writes its file where the number is free.
  lemma {:induction false} WritesAt(s: System, version: string, tables: nat, pid: Pid, data: Data, i: nat)
      returns (steps: seq<Step>)
    requires PhaseOf(s, pid) == Wants(i) && i !in s.locks && i !in s.files && |data| == tables
    ensures steps == [TryLock(pid), CheckFile(pid), OpenFile(pid), WriteFile(pid, data)]
    ensures Reaches(s, version, tables, steps, s.(phases := s.phases - {pid},
                                                  files := s.files[i := Extras(data, version)],
                                                  saved := s.saved + Keys(data)))
  {
    hide Keys, Reaches;
    var s1 := s.(phases := s.phases[pid := Holds(i)], locks := s.locks[i := pid]);
    var s2 := s.(phases := s.phases[pid := Clear(i)], locks := s.locks[i := pid]);
    var s3 := s.(phases := s.phases[pid := Writing(i)], locks := s.locks[i := pid], files := s.files[i := Unreadable]);
    var s4 := s.(phases := s.phases - {pid}, files := s.files[i := Extras(data, version)],
                 saved := s.saved + Keys(data));
    assert s1.phases[pid := Clear(i)] == s2.phases && s2.phases[pid := Writing(i)] == s3.phases;
    assert s3.phases - {pid} == s4.phases && s3.locks - {i} == s4.locks
      && s3.files[i := Extras(data, version)] == s4.files;
    ReachesStep(s, version, tables, TryLock(pid));
    ReachesStep(s1, version, tables, CheckFile(pid));
    ReachesStep(s2, version, tables, OpenFile(pid));
    ReachesStep(s3, version, tables, WriteFile(pid, data));
    hide After, Enabled;
    ReachesBoth(s2, version, tables, [OpenFile(pid)], s3, [WriteFile(pid, data)], s4);
    ReachesBoth(s1, version, tables, [CheckFile(pid)], s2, [OpenFile(pid)] + [WriteFile(pid, data)], s4);
    steps := [TryLock(pid)] + ([CheckFile(pid)] + ([OpenFile(pid)] + [WriteFile(pid, data)]));
    ReachesBoth(s, version, tables, [TryLock(pid)], s1, [CheckFile(pid)] + ([OpenFile(pid)] + [WriteFile(pid, data)]),
      s4);
  }

  // Saving waits for nobody: whatever locks others hold and whatever files there are, a process that saves gets
  // to the end by steps of its own, and its data is in the first free file.
  lemma {:induction false} SavingWaitsForNobody(s: System, version: string, tables: nat, pid: Pid, data: Data, i: nat)
      returns (steps: seq<Step>, j: nat)
    requires PhaseOf(s, pid) == Wants(i) && |data| == tables
    ensures FirstFree(s, i, j)
    ensures Reaches(s, version, tables, steps, s.(phases := s.phases - {pid},
                                                  files := s.files[j := Extras(data, version)],
                                                  saved := s.saved + Keys(data)))
    ensures forall step :: step in steps ==> step.pid == pid
    decreases |Taken(s, i)|
  {
    hide Reaches, Keys;
    if i in s.locks || i in s.files {
      var first := PassesBy(s, version, tables, pid, i);
      var next := s.(phases := s.phases[pid := Wants(i + 1)]);
      assert Taken(next, i + 1) == Taken(s, i) - {i} && i in Taken(s, i);
      var rest;
      rest, j := SavingWaitsForNobody(next, version, tables, pid, data, i + 1);
      assert next.phases - {pid} == s.phases - {pid};
      ReachesBoth(s, version, tables, first, next, rest,
        s.(phases := s.phases - {pid}, files := s.files[j := Extras(data, version)], saved := s.saved + Keys(data)));
      steps := first + rest;
    } else {
      j := i;
      steps := WritesAt(s, version, tables, pid, data, i);
    }
  }

  lemma {:induction false} SavingEnds(s: System, version: string, tables: nat, pid: Pid, data: Data)
    requires s.phases == map[] && s.locks == map[] && s.files == map[] && |data| == tables
    ensures Reaches(s, version, tables, Saving(pid, data),
      s.(files := map[pid := Extras(data, version)], saved := s.saved + Keys(data)))
  {
    hide Keys;
    var s1 := s.(phases := map[pid := Wants(pid)]);
    var end := s.(files := map[pid := Extras(data, version)], saved := s.saved + Keys(data));
    ReachesStep(s, version, tables, BeginSave(pid));
    var steps := WritesAt(s1, version, tables, pid, data, pid);
    assert s1.phases - {pid} == map[] && s1.files[pid := Extras(data, version)] == end.files;
    ReachesBoth(s, version, tables, [BeginSave(pid)], s1, steps, end);
    assert Saving(pid, data) == [BeginSave(pid)] + steps;
  }

  // What one process saves and another merges.
  lemma {:induction false} SavedAndMerged(s: System, version: string, pid: Pid, merger: Pid, k: string)
    requires s.phases == map[] && s.locks == map[] && s.files == map[] && merger in s.memory
      && s.memory[merger] == [map[]]
    ensures var data := [map[k := ""]];
      Reaches(s, version, 1, Saving(pid, data) + [SaveMerge(merger, [pid])],
              s.(memory := s.memory[merger := data], disk := Some(data), saved := s.saved + {(0, k)}))
  {
    var data := [map[k := ""]];
    var filed := s.(files := map[pid := Extras(data, version)], saved := s.saved + {(0, k)});
    assert Keys(data) == {(0, k)};
    SavingEnds(s, version, 1, pid, data);
    var step := SaveMerge(merger, [pid]);
    assert IsValid(filed.files[pid], version, 1);
    assert MergeDict(map[k := ""], map[]) == map[k := ""];
    assert MergeData(data, [map[]]) == data;
    assert [pid][0] == pid && [pid][1..] == [];
    assert MergeFiles([pid], filed.files, version, [map[]]) == MergeFiles([], filed.files, version, data) == data;
    ReachesStep(filed, version, 1, step);
    ReachesBoth(s, version, 1, Saving(pid, data), filed, [step], After(filed, version, 1, step));
  }

  // With two merging processes an update can get lost: both have loaded an empty cache, and what the
  // first one merges, the second one writes over.
  lemma {:induction false} UpdateIsLost(version: string, k: string, l: string)
      returns (s: System, steps: seq<Step>, t: System)
    requires k != l
    ensures Fresh(s, version, 1) && Reaches(s, version, 1, steps, t)
    ensures (0, k) in t.saved && t.files == map[] && !OnDisk(t, (0, k)) && !NothingLost(t, version, 1)
  {
    hide Reaches, After, MergeFiles;
    s := System(map[], map[], map[], map[0 := [map[]], 1 := [map[]]], None, {});
    var merged := s.(memory := s.memory[0 := [map[k := ""]]], disk := Some([map[k := ""]]), saved :=
      s.saved + {(0, k)});
    t := merged.(memory := merged.memory[1 := [map[l := ""]]], disk := Some([map[l := ""]]), saved :=
      merged.saved + {(0, l)});
    SavedAndMerged(s, version, 2, 0, k);
    SavedAndMerged(merged, version, 2, 1, l);
    var first, second := Saving(2, [map[k := ""]]) + [SaveMerge(0, [2])],
      Saving(2, [map[l := ""]]) + [SaveMerge(1, [2])];
    ReachesBoth(s, version, 1, first, merged, second, t);
    steps := first + second;
    assert !OnDisk(t, (0, k)) && !InFiles(t, version, 1, (0, k));
  }

  // After a merge, every key of every readable extras file of this version is in the cache, keys that
  // were cached keep their value, every other value comes from one of those files, and no extras
  // file is left.
  lemma {:induction false} MergeTakesAll(s: System, version: string, pid: Pid, order: seq<nat>)
    requires pid in s.memory && Lists(order, s.files)
    ensures var (before, t) := (s.memory[pid], AfterMerge(s, version, pid, order)); var merged := t.memory[pid];
      && t.files == map[] && |merged| == |before|
      && (SomeValid(s.files, version, |before|) ==> t.disk == Some(merged))
      && (forall j, k :: 0 <= j < |before| && k in before[j] ==> k in merged[j] && merged[j][k] == before[j][k])
      && (forall i, j, k ::
            i in s.files && IsValid(s.files[i], version, |before|)
            && 0 <= j < |before| && k in s.files[i].data[j] ==>
              k in merged[j])
      && (forall j, k :: 0 <= j < |before| && k in merged[j] ==>
            (k in before[j] && merged[j][k] == before[j][k])
              || FromFile(s.files, version, |before|, j, k, merged[j][k]))
  {
    FilesMerged(order, s.files, version, s.memory[pid]);
    NothingInvented(order, s.files, version, s.memory[pid]);
  }

  // Files that cannot be read, and those of another version, are removed and give nothing.
  lemma {:induction false} OthersGiveNothing(s: System, version: string, pid: Pid, order: seq<nat>)
    requires pid in s.memory && Lists(order, s.files)
    requires forall i :: i in s.files ==> s.files[i].Unreadable? || s.files[i].version != version
    ensures AfterMerge(s, version, pid, order) == s.(files := map[])
  {
    NothingMerged(order, s.files, version, s.memory[pid]);
    assert s.memory[pid := s.memory[pid]] == s.memory;
  }

  lemma {:induction false} NothingMerged(order: seq<nat>, files: map<nat, Extras>, version: string, data: Data)
    requires forall i :: i in files ==> files[i].Unreadable? || files[i].version != version
    ensures MergeFiles(order, files, version, data) == data
    decreases |order|
  {
    if order != [] {
      NothingMerged(order[1..], files, version, data);
    }
  }

  // ----- the program -----

  // One process and its view of the cache directory.
  class Cache {
    var cachedata: Data
    var files: map<nat, Extras>
    var cachefile: Option<Data>
    const version: string

    constructor (cachedata: Data, files: map<nat, Extras>, cachefile: Option<Data>, version: string)
      ensures this.cachedata == cachedata && this.files == files && this.cachefile == cachefile
        && this.version == version
    {
      this.cachedata, this.files, this.cachefile, this.version := cachedata, files, cachefile, version;
    }

    // `merge_data` into `self.cachedata`
    method Merge(source: Data)
      requires |source| == |cachedata|
      modifies this`cachedata
      ensures cachedata == MergeData(source, old(cachedata)) && |cachedata| == |old(cachedata)|
    {
      for j := 0 to |cachedata|
        invariant |cachedata| == |old(cachedata)|
        invariant forall x :: 0 <= x < |cachedata| ==>
          cachedata[x] == if x < j then MergeDict(source[x], old(cachedata)[x]) else old(cachedata)[x]
      {
        var dest := AddMissing(source[j], cachedata[j]);
        cachedata := cachedata[j := dest];
      }
    }

    static method AddMissing(source: map<string, string>, dest0: map<string, string>)
        returns (dest: map<string, string>)
      ensures dest == MergeDict(source, dest0)
    {
      dest := dest0;
      var todo := source.Keys;
      while todo != {}
        invariant todo <= source.Keys
        invariant forall k :: k in dest <==> k in dest0 || (k in source && k !in todo)
        invariant forall k :: k in dest ==> dest[k] == if k in dest0 then dest0[k] else source[k]
      {
        var h :| h in todo;
        todo := todo - {h};
        if h !in dest {
          dest := dest[h := source[h]];
        }
      }
      assert dest == source + dest0;
    }

    // One file of `save_merge`.
    method MergeFile(i: nat) returns (merged: bool)
      requires i in files
      requires files[i].Extras? && files[i].version == version ==> |files[i].data| == |cachedata|
      modifies this`cachedata, this`files
      ensures merged <==> IsValid(old(files)[i], version, |old(cachedata)|)
      ensures cachedata == if merged then MergeData(old(files)[i].data, old(cachedata)) else old(cachedata)
      ensures files == old(files) - {i} && |cachedata| == |old(cachedata)|
    {
      var e := files[i];
      merged := e.Extras? && e.version == version;
      if merged {
        Merge(e.data);
      }
      files := files - {i};
    }

    // `save_merge`, which runs under the exclusive lock; `order` is the directory listing.
    method SaveMerge(order: seq<nat>)
      requires Lists(order, files) && NoRepeats(order)
      requires AllFit(files, version, |cachedata|)
      modifies this
      ensures files == map[] && cachedata == MergeFiles(order, old(files), version, old(cachedata))
      ensures cachefile == if SomeValid(old(files), version, |old(cachedata)|) then Some(cachedata) else old(cachefile)
    {
      hide *;
      var haveData := false;
      ghost var (all, start) := (files, cachedata);
      MergingStarts(order, files, version, cachedata);
      for x := 0 to |order|
        invariant cachefile == old(cachefile)
        invariant Merging(order, x, all, version, start, files, cachedata, haveData)
      {
        MergingFile(order, x, all, version, start, files, cachedata, haveData);
        ghost var (left, before) := (files, cachedata);
        var merged := MergeFile(order[x]);
        MergingGoesOn(order, x, all, version, start, left, before, haveData, merged);
        haveData := haveData || merged;
      }
      MergingEnds(order, all, version, start, files, cachedata, haveData);
      if haveData {
        cachefile := Some(cachedata);
      }
    }
  }

  // The first `x` files have been merged and removed.
  ghost predicate Merging(order: seq<nat>, x: nat, all: map<nat, Extras>, version: string, start: Data,
                          files: map<nat, Extras>, data: Data, haveData: bool) {
    && x <= |order| && Lists(order, all) && |data| == |start|
    && (forall i :: i in files <==> i in order[x..])
    && (forall i :: i in files ==> i in all && files[i] == all[i])
    && AllFit(all, version, |data|)
    && MergeFiles(order[x..], all, version, data) == MergeFiles(order, all, version, start)
    && (haveData <==> exists y :: 0 <= y < x && IsValid(all[order[y]], version, |data|))
  }

  lemma {:induction false} MergingStarts(order: seq<nat>, all: map<nat, Extras>, version: string, start: Data)
    requires Lists(order, all)
    requires AllFit(all, version, |start|)
    ensures Merging(order, 0, all, version, start, all, start, false)
  {
    assert order[0..] == order;
  }

  lemma {:induction false} MergingEnds(order: seq<nat>, all: map<nat, Extras>, version: string, start: Data,
                                       files: map<nat, Extras>, data: Data, haveData: bool)
    requires Merging(order, |order|, all, version, start, files, data, haveData)
    ensures files == map[] && data == MergeFiles(order, all, version, start)
    ensures haveData <==> SomeValid(all, version, |start|)
  {
    assert order[|order|..] == [];
    if SomeValid(all, version, |start|) {
      var i :| i in all && IsValid(all[i], version, |start|);
      assert i in order;
    }
  }

  lemma {:induction false} MergingFile(order: seq<nat>, x: nat, all: map<nat, Extras>, version: string, start: Data,
                                       files: map<nat, Extras>, data: Data, haveData: bool)
    requires Merging(order, x, all, version, start, files, data, haveData) && x < |order|
    ensures order[x] in files && files[order[x]] == all[order[x]]
    ensures files[order[x]].Extras? && files[order[x]].version == version ==> |files[order[x]].data| == |data|
  {
    assert order[x..][0] == order[x];
  }

  lemma {:induction false} MergingGoesOn(order: seq<nat>, x: nat, all: map<nat, Extras>, version: string, start: Data,
                                         files: map<nat, Extras>, data: Data, haveData: bool, merged: bool)
    requires Merging(order, x, all, version, start, files, data, haveData) && x < |order|
    requires NoRepeats(order)
    requires order[x] in files && (merged <==> IsValid(files[order[x]], version, |data|))
    ensures Merging(order, x + 1, all, version, start, files - {order[x]},
                    if merged then MergeData(files[order[x]].data, data) else data, haveData || merged)
  {
    if merged { MergeKeeps(files[order[x]].data, data); }
    assert order[x..][0] == order[x] && order[x..][1..] == order[x + 1..];
    assert forall i :: i in order[x..] <==> i == order[x] || i in order[x + 1..];
    assert order[x] !in order[x + 1..];
  }
}
