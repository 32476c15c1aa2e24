// The tasks between two tasks (build.py:996-1023): a depth-first walk along the dependencies, with
// the chain of tasks that leads to the current one.
module TaskChains {
  import opened Prelude

  // `deps` of a task that has no such flag are None.
  datatype Recipe = Recipe(tasks: seq<string>, deps: map<string, seq<string>>)

  datatype Failure = Circular(task: string, chain: seq<string>) | NoDeps(task: string)

  // The walk goes from `x` to `y`: `y` is a task that depends on `x`. A task that depends on itself
  // is passed over.
  predicate Next(r: Recipe, x: string, y: string) {
    y in r.tasks && y != x && y in r.deps && x in r.deps[y]
  }

  predicate IsWalk(r: Recipe, p: seq<string>) {
    p != [] && forall i :: 0 <= i < |p| - 1 ==> Next(r, p[i], p[i + 1])
  }

  // A way from `a` to the end: the walk stops at the first occurrence of `end`.
  predicate IsWay(r: Recipe, a: string, end: string, p: seq<string>) {
    IsWalk(r, p) && p[0] == a && p[|p| - 1] == end && forall i :: 0 <= i < |p| - 1 ==> p[i] != end
  }

  ghost predicate Arrives(r: Recipe, a: string, end: string) {
    exists p :: IsWay(r, a, end, p)
  }

  ghost predicate OnWay(r: Recipe, a: string, end: string, x: string) {
    exists p :: IsWay(r, a, end, p) && x in p
  }

  predicate HasOther(tasks: seq<string>, end: string) {
    exists t :: t in tasks && t != end
  }

  // ----- ways and their first step -----

  lemma {:induction false} WayAtEnd(r: Recipe, end: string)
    ensures Arrives(r, end, end) && forall x :: OnWay(r, end, end, x) <==> x == end
  {
    assert IsWay(r, end, end, [end]) && end in [end];
    forall x | OnWay(r, end, end, x) ensures x == end {
      var p :| IsWay(r, end, end, p) && x in p;
      assert |p| == 1;
    }
  }

  lemma {:induction false} OneStepMore(r: Recipe, a: string, b: string, end: string, x: string)
    requires a != end && Next(r, a, b)
    ensures Arrives(r, b, end) ==> Arrives(r, a, end) && OnWay(r, a, end, a)
    ensures OnWay(r, b, end, x) ==> OnWay(r, a, end, x)
  {
    if Arrives(r, b, end) {
      var p :| IsWay(r, b, end, p);
      LongerWay(r, a, b, end, p);
      assert a in [a] + p;
    }
    if OnWay(r, b, end, x) {
      var p :| IsWay(r, b, end, p) && x in p;
      LongerWay(r, a, b, end, p);
      assert x in [a] + p;
    }
  }

  lemma {:induction false} LongerWay(r: Recipe, a: string, b: string, end: string, p: seq<string>)
    requires a != end && Next(r, a, b) && IsWay(r, b, end, p)
    ensures IsWay(r, a, end, [a] + p)
  {
    var q := [a] + p;
    forall i | 0 <= i < |q| - 1 ensures Next(r, q[i], q[i + 1]) && q[i] != end {
      if i > 0 { assert q[i] == p[i - 1] && q[i + 1] == p[i]; }
    }
  }

  lemma {:induction false} FirstStep(r: Recipe, a: string, end: string, p: seq<string>)
    requires a != end && IsWay(r, a, end, p)
    ensures |p| > 1 && p[1] in r.tasks && Next(r, a, p[1]) && IsWay(r, p[1], end, p[1..]) && p == [a] + p[1..]
  {
    var q := p[1..];
    forall i | 0 <= i < |q| - 1 ensures Next(r, q[i], q[i + 1]) && q[i] != end {
      assert q[i] == p[i + 1] && q[i + 1] == p[i + 2];
    }
  }

  // What the loop over the first `n` tasks has found for `a`.
  ghost predicate Found(r: Recipe, a: string, end: string, n: nat, x: string)
    requires n <= |r.tasks|
  {
    exists i :: 0 <= i < n && FoundAt(r, a, end, r.tasks[i], x)
  }

  ghost predicate FoundAt(r: Recipe, a: string, end: string, b: string, x: string) {
    Next(r, a, b) && (OnWay(r, b, end, x) || (x == a && Arrives(r, b, end)))
  }

  ghost predicate Led(r: Recipe, a: string, end: string, n: nat)
    requires n <= |r.tasks|
  {
    exists i :: 0 <= i < n && Next(r, a, r.tasks[i]) && Arrives(r, r.tasks[i], end)
  }

  lemma {:induction false} AllFound(r: Recipe, a: string, end: string)
    requires a != end
    ensures Led(r, a, end, |r.tasks|) <==> Arrives(r, a, end)
    ensures forall x :: Found(r, a, end, |r.tasks|, x) <==> OnWay(r, a, end, x)
  {
    if Arrives(r, a, end) {
      var p :| IsWay(r, a, end, p);
      FirstStep(r, a, end, p);
      var i :| 0 <= i < |r.tasks| && r.tasks[i] == p[1];
      assert Arrives(r, r.tasks[i], end);
    }
    if Led(r, a, end, |r.tasks|) {
      var i :| 0 <= i < |r.tasks| && Next(r, a, r.tasks[i]) && Arrives(r, r.tasks[i], end);
      OneStepMore(r, a, r.tasks[i], end, a);
    }
    forall x ensures Found(r, a, end, |r.tasks|, x) <==> OnWay(r, a, end, x) {
      FoundIsOnWay(r, a, end, x);
    }
  }

  lemma {:induction false} FoundIsOnWay(r: Recipe, a: string, end: string, x: string)
    requires a != end
    ensures Found(r, a, end, |r.tasks|, x) <==> OnWay(r, a, end, x)
  {
    if OnWay(r, a, end, x) {
      var p :| IsWay(r, a, end, p) && x in p;
      FirstStep(r, a, end, p);
      var i :| 0 <= i < |r.tasks| && r.tasks[i] == p[1];
      assert Arrives(r, r.tasks[i], end);
      assert x in p[1..] ==> OnWay(r, r.tasks[i], end, x);
      assert FoundAt(r, a, end, r.tasks[i], x);
    }
    if Found(r, a, end, |r.tasks|, x) {
      var i :| 0 <= i < |r.tasks| && FoundAt(r, a, end, r.tasks[i], x);
      OneStepMore(r, a, r.tasks[i], end, x);
    }
  }

  lemma {:induction false} OneMoreTask(r: Recipe, a: string, end: string, n: nat)
    requires n < |r.tasks|
    ensures forall x :: Found(r, a, end, n + 1, x) <==> Found(r, a, end, n, x) || FoundAt(r, a, end, r.tasks[n], x)
    ensures Led(r, a, end, n + 1) <==> Led(r, a, end, n) || (Next(r, a, r.tasks[n]) && Arrives(r, r.tasks[n], end))
  {
    forall x ensures Found(r, a, end, n + 1, x) <==> Found(r, a, end, n, x) || FoundAt(r, a, end, r.tasks[n], x) {}
  }

  // ----- what the walk has collected -----

  // `out` is `before` with the chain and everything on the way from `task`, which the chain leads to,
  // if that arrives at the end.
  ghost predicate Done(r: Recipe, end: string, task: string, chain: seq<string>, before: seq<string>,
                       out: seq<string>) {
    && NoRepeats(out)
    && (forall x :: x in out <==> (x in before
      || (HasOther(r.tasks, end) && (OnWay(r, task, end, x) || (Arrives(r, task, end) && x in chain)))))
  }

  // The same when only the first `n` tasks have been tried after `task`, the last one of the chain.
  ghost predicate Collected(r: Recipe, end: string, task: string, chain: seq<string>, n: nat, before: seq<string>,
                            out: seq<string>)
    requires n <= |r.tasks|
  {
    && NoRepeats(out)
    && (forall x :: x in out <==> (x in before
      || (HasOther(r.tasks, end) && (Found(r, task, end, n, x) || (Led(r, task, end, n) && x in chain)))))
  }

  lemma {:induction false} CollectedNothing(r: Recipe, end: string, task: string, chain: seq<string>,
                                            before: seq<string>)
    requires NoRepeats(before)
    ensures Collected(r, end, task, chain, 0, before, before)
  {}

  lemma {:induction false} CollectedSkip(r: Recipe, end: string, task: string, chain: seq<string>, n: nat,
                                         before: seq<string>, out: seq<string>)
    requires n < |r.tasks| && Collected(r, end, task, chain, n, before, out) && !Next(r, task, r.tasks[n])
    ensures Collected(r, end, task, chain, n + 1, before, out)
  {
    OneMoreTask(r, task, end, n);
    assert forall x :: !FoundAt(r, task, end, r.tasks[n], x);
  }

  lemma {:induction false} CollectedMore(r: Recipe, end: string, task: string, chain: seq<string>, n: nat,
                                         before: seq<string>, mid: seq<string>, out: seq<string>)
    requires n < |r.tasks| && Collected(r, end, task, chain, n, before, mid) && Next(r, task, r.tasks[n])
      && task in chain
    requires Done(r, end, r.tasks[n], chain, mid, out)
    ensures Collected(r, end, task, chain, n + 1, before, out)
  {
    OneMoreTask(r, task, end, n);
    var t := r.tasks[n];
    assert forall x :: FoundAt(r, task, end, t, x) <==> OnWay(r, t, end, x) || (x == task && Arrives(r, t, end));
  }

  lemma {:induction false} CollectedAll(r: Recipe, end: string, task: string, chain: seq<string>, before: seq<string>,
                                        out: seq<string>)
    requires task != end && Collected(r, end, task, chain + [task], |r.tasks|, before, out)
    ensures Done(r, end, task, chain, before, out)
  {
    AllFound(r, task, end);
    if Arrives(r, task, end) {
      var p :| IsWay(r, task, end, p);
      assert task in p;
    }
  }

  lemma {:induction false} EndIsDone(r: Recipe, end: string, chain: seq<string>, before: seq<string>, out: seq<string>)
    requires NoRepeats(out) && forall x :: x in out <==> (x in before || (HasOther(r.tasks, end) && x in chain + [end]))
    ensures Done(r, end, end, chain, before, out)
  {
    WayAtEnd(r, end);
  }

  lemma {:induction false} OtherSoFar(tasks: seq<string>, n: nat, end: string)
    requires n < |tasks|
    ensures HasOther(tasks[..n + 1], end) <==> HasOther(tasks[..n], end) || tasks[n] != end
  {
    assert tasks[..n + 1] == tasks[..n] + [tasks[n]];
    assert tasks[n] in tasks[..n + 1];
    assert forall t :: t in tasks[..n] ==> t in tasks[..n + 1];
  }

  // The tasks of a chain are distinct, so it cannot grow for ever.
  function Left(r: Recipe, start: string, chain: seq<string>): nat {
    |(set t | t in r.tasks) + {start} - (set t | t in chain)|
  }

  lemma {:induction false} LessLeft(r: Recipe, start: string, chain: seq<string>, task: string)
    requires task !in chain && (task == start || task in r.tasks)
    ensures Left(r, start, chain + [task]) < Left(r, start, chain)
  {
    var all := (set t | t in r.tasks) + {start};
    var before, after := all - (set t | t in chain), all - (set t | t in chain + [task]);
    assert after == before - {task} && task in before;
  }

  // The chain leads from the start to `task`.
  predicate LeadsTo(r: Recipe, start: string, chain: seq<string>, task: string) {
    IsWalk(r, chain + [task]) && (chain + [task])[0] == start && (task == start || task in r.tasks)
  }

  lemma {:induction false} LeadsOn(r: Recipe, start: string, chain: seq<string>, task: string, t: string)
    requires LeadsTo(r, start, chain, task) && Next(r, task, t)
    ensures LeadsTo(r, start, chain + [task], t)
  {
    var p := chain + [task];
    var q := p + [t];
    forall i | 0 <= i < |q| - 1 ensures Next(r, q[i], q[i + 1]) {
      if i < |p| - 1 { assert q[i] == p[i] && q[i + 1] == p[i + 1]; }
    }
  }

  // A reported cycle is real: a walk from the start that comes back to a task of its own.
  predicate IsCycle(r: Recipe, start: string, task: string, chain: seq<string>) {
    task in chain && LeadsTo(r, start, chain, task)
  }

  predicate IsReal(r: Recipe, start: string, failure: Failure) {
    match failure
    case Circular(task, chain) => IsCycle(r, start, task, chain)
    case NoDeps(task) => task in r.tasks && task !in r.deps
  }

  // ----- the program -----

  class TasksBetween {
    const r: Recipe
    const start: string
    const end: string
    var outtasks: seq<string>
    var chain: seq<string>

    constructor (r: Recipe, start: string, end: string)
      ensures this.r == r && this.start == start && this.end == end && outtasks == [] && chain == []
    {
      this.r, this.start, this.end := r, start, end;
      outtasks, chain := [], [];
    }

    // `follow_chain`
    method FollowChain(task: string) returns (failure: Option<Failure>)
      requires NoRepeats(outtasks) && LeadsTo(r, start, chain, task)
      modifies this
      ensures failure.None? ==> chain == old(chain) && Done(r, end, task, chain, old(outtasks), outtasks)
      ensures failure.Some? ==> IsReal(r, start, failure.value)
      decreases Left(r, start, chain), 0
    {
      hide Done, Collected, LeadsTo;
      if task in chain {
        return Some(Circular(task, chain));
      }
      TaskIsKnown(task);
      LessLeft(r, start, chain, task);
      ghost var outer := chain;
      chain := chain + [task];
      if task == end {
        AddChains(task);
        EndIsDone(r, end, outer, old(outtasks), outtasks);
      } else {
        failure := FollowAll(task, outer);
        if failure.Some? {
          return;
        }
        CollectedAll(r, end, task, outer, old(outtasks), outtasks);
      }
      chain := chain[..|chain| - 1];
      assert chain == outer;
      return None;
    }

    lemma TaskIsKnown(task: string)
      requires LeadsTo(r, start, chain, task)
      ensures task == start || task in r.tasks
    {}

    // The loop for the end task: the chain is added for every other task.
    method AddChains(task: string)
      requires task == end && NoRepeats(outtasks)
      modifies this`outtasks
      ensures NoRepeats(outtasks)
      ensures forall x :: x in outtasks <==> (x in old(outtasks) || (HasOther(r.tasks, end) && x in chain))
    {
      for i := 0 to |r.tasks|
        invariant NoRepeats(outtasks)
        invariant forall x :: x in outtasks <==> (x in old(outtasks) || (HasOther(r.tasks[..i], end) && x in chain))
      {
        OtherSoFar(r.tasks, i, end);
        if r.tasks[i] != task {
          AddChain();
        }
      }
      assert r.tasks[..|r.tasks|] == r.tasks;
    }

    method AddChain()
      requires NoRepeats(outtasks)
      modifies this`outtasks
      ensures NoRepeats(outtasks) && forall x :: x in outtasks <==> (x in old(outtasks) || x in chain)
    {
      for i := 0 to |chain|
        invariant NoRepeats(outtasks) && forall x :: x in outtasks <==> (x in old(outtasks) || x in chain[..i])
      {
        assert chain[..i + 1] == chain[..i] + [chain[i]];
        if chain[i] !in outtasks {
          outtasks := outtasks + [chain[i]];
        }
      }
      assert chain[..|chain|] == chain;
    }

    // The loop for any other task.
    method FollowAll(task: string, ghost outer: seq<string>) returns (failure: Option<Failure>)
      requires task != end && NoRepeats(outtasks) && chain == outer + [task] && LeadsTo(r, start, outer, task)
      modifies this
      ensures failure.None? ==> chain == old(chain)
      ensures failure.None? ==> Collected(r, end, task, chain, |r.tasks|, old(outtasks), outtasks)
      ensures failure.Some? ==> IsReal(r, start, failure.value)
      decreases Left(r, start, chain), 1
    {
      hide Left, OnWay;
      failure := None;
      CollectedNothing(r, end, task, chain, outtasks);
      hide Done, LeadsTo;
      for i := 0 to |r.tasks|
        invariant failure == None && chain == old(chain) && Collected(r, end, task, chain, i, old(outtasks), outtasks)
      {
        var othertask := r.tasks[i];
        if othertask == task {
          CollectedSkip(r, end, task, chain, i, old(outtasks), outtasks);
          continue;
        }
        if othertask !in r.deps {
          return Some(NoDeps(othertask));
        }
        if task in r.deps[othertask] {
          LeadsOn(r, start, outer, task, othertask);
          ghost var mid := outtasks;
          failure := FollowChain(othertask);
          if failure.Some? {
            return;
          }
          CollectedMore(r, end, task, chain, i, old(outtasks), mid, outtasks);
        } else {
          CollectedSkip(r, end, task, chain, i, old(outtasks), outtasks);
        }
      }
    }
  }

  // `tasksbetween`
  method FindTasksBetween(r: Recipe, start: string, end: string) returns (result: Result<seq<string>, Failure>)
    ensures result.Ok? ==> NoRepeats(result.value)
    ensures result.Ok? ==> forall x :: x in result.value <==> (HasOther(r.tasks, end) && OnWay(r, start, end, x))
    ensures result.Err? ==> IsReal(r, start, result.error)
  {
    var walk := new TasksBetween(r, start, end);
    assert [] + [start] == [start];
    var failure := walk.FollowChain(start);
    if failure.Some? {
      return Err(failure.value);
    }
    return Ok(walk.outtasks);
  }

  // ----- acyclic dependencies -----

  // No walk of one or more steps comes back to where it began.
  ghost predicate Acyclic(r: Recipe) {
    forall p :: IsWalk(r, p) && |p| > 1 ==> p[0] != p[|p| - 1]
  }

  lemma {:induction false} PartOfWalk(r: Recipe, p: seq<string>, i: nat, j: nat)
    requires IsWalk(r, p) && i < j <= |p|
    ensures IsWalk(r, p[i..j])
  {
    var q := p[i..j];
    forall k | 0 <= k < |q| - 1 ensures Next(r, q[k], q[k + 1]) {
      assert q[k] == p[i + k] && q[k + 1] == p[i + k + 1];
    }
  }

  // On acyclic dependencies no cycle is reported.
  lemma {:induction false} NoCycleReported(r: Recipe, start: string, task: string, chain: seq<string>)
    requires Acyclic(r)
    ensures !IsCycle(r, start, task, chain)
  {
    if IsCycle(r, start, task, chain) {
      var cycle := ReportedCycleIsReal(r, start, task, chain);
      assert false;
    }
  }

  // There, every walk from the start to the end is a way, so that the result holds exactly the tasks
  // on some chain of dependencies between the two.
  lemma {:induction false} EveryWalkIsAWay(r: Recipe, start: string, end: string, p: seq<string>)
    requires Acyclic(r) && IsWalk(r, p) && p[0] == start && p[|p| - 1] == end
    ensures IsWay(r, start, end, p)
  {
    forall i | 0 <= i < |p| - 1 ensures p[i] != end {
      PartOfWalk(r, p, i, |p|);
      assert p[i..|p|][0] == p[i];
    }
  }

  ghost predicate Between(r: Recipe, start: string, end: string, x: string) {
    exists p :: IsWalk(r, p) && p[0] == start && p[|p| - 1] == end && x in p
  }

  lemma {:induction false} ResultIsBetween(r: Recipe, start: string, end: string, out: seq<string>)
    requires Acyclic(r) && start != end && start in r.tasks
    requires forall x :: x in out <==> (HasOther(r.tasks, end) && OnWay(r, start, end, x))
    ensures forall x :: x in out <==> Between(r, start, end, x)
  {
    assert HasOther(r.tasks, end);
    forall x | Between(r, start, end, x) ensures x in out {
      var p :| IsWalk(r, p) && p[0] == start && p[|p| - 1] == end && x in p;
      EveryWalkIsAWay(r, start, end, p);
    }
  }

  // A reported cycle goes through at least two tasks and can be reached from the start.
  lemma {:induction false} ReportedCycleIsReal(r: Recipe, start: string, task: string, chain: seq<string>)
      returns (cycle: seq<string>)
    requires IsCycle(r, start, task, chain)
    ensures IsWalk(r, cycle) && |cycle| > 2 && cycle[0] == cycle[|cycle| - 1] == task
    ensures exists p :: IsWalk(r, p) && p[0] == start && p[|p| - 1] == task
  {
    var i :| 0 <= i < |chain| && chain[i] == task;
    var p := chain + [task];
    PartOfWalk(r, p, i, |p|);
    cycle := p[i..|p|];
    assert cycle[0] == task && cycle[|cycle| - 1] == task;
    assert Next(r, cycle[0], cycle[1]);
  }
}
