// Parsing recipes in parallel (cooker.py:2055-2081, 2154-2365): worker processes with jobs and
// pending results, one queue, and one consumer that counts.
//
// The steps are those between which the processes can interleave. `Pipeline` is the state that all
// of them share; a run is any sequence of steps.
module ParsePipeline {
  type Job = string

  datatype Result = Parsed(job: Job) | Failed(job: Job)

  datatype Status = Looping | Leaving | Gone

  // One process: `jobs` and `pending` are lists in its own memory; what it has put goes through
  // `buffer` to the queue.
  datatype Worker = Worker(jobs: seq<Job>, pending: seq<Result>, havejobs: bool, buffer: seq<Result>, status: Status)

  // Where `self.results` stands: before the next cached recipe, in front of the loop test of
  // `parse_generator`, inside its `get`, or exhausted.
  datatype Source = Cached(left: nat) | AtTest(empty: bool) | InGet | Exhausted

  datatype Pipeline = Pipeline(
    workers: seq<Worker>, queue: seq<Result>, quit: bool,
    processes: set<nat>, closed: bool, source: Source,
    toparse: nat, parsed: nat, cached: nat, error: nat, haveshutdown: bool, interrupted: bool,
    consumed: seq<Result>, drained: seq<Result>, lost: seq<Job>)

  // ----- dealing out the jobs -----

  // lst[i::n]
  function Every<T>(lst: seq<T>, i: nat, n: nat): seq<T>
    requires n > 0
    decreases |lst| - i
  {
    if i >= |lst| then [] else [lst[i]] + Every(lst, i + n, n)
  }

  function JobsOf(results: seq<Result>): seq<Job> {
    if results == [] then [] else [results[0].job] + JobsOf(results[1..])
  }

  lemma {:induction false} JobsOfConcat(a: seq<Result>, b: seq<Result>)
    ensures JobsOf(a + b) == JobsOf(a) + JobsOf(b)
    ensures |JobsOf(a)| == |a|
    decreases |a|
  {
    if a == [] {
      assert a + b == b;
    } else {
      assert (a + b)[1..] == a[1..] + b;
      JobsOfConcat(a[1..], b);
    }
  }

  // The jobs that a process still holds, in any form.
  function Held(w: Worker): multiset<Job> {
    multiset(w.jobs) + multiset(JobsOf(w.pending)) + multiset(JobsOf(w.buffer))
  }

  function AllHeld(workers: seq<Worker>): multiset<Job> {
    if workers == [] then multiset{} else AllHeld(workers[..|workers| - 1]) + Held(workers[|workers| - 1])
  }

  lemma {:induction false} HeldAfter(workers: seq<Worker>, i: nat, w: Worker)
    requires i < |workers|
    ensures AllHeld(workers[i := w]) + Held(workers[i]) == AllHeld(workers) + Held(w)
  {
    hide Held;
    var last := |workers| - 1;
    var after, few := workers[i := w], workers[..last];
    var h := Held(workers[last]);
    if i == last {
      assert after[..last] == few;
      Swap(AllHeld(few), Held(w), h);
    } else {
      assert after[..last] == few[i := w] && after[last] == workers[last];
      HeldAfter(few, i, w);
      Swap(AllHeld(few[i := w]), h, Held(workers[i]));
      Swap(AllHeld(few), h, Held(w));
    }
  }

  lemma {:induction false} Swap(a: multiset<Job>, b: multiset<Job>, c: multiset<Job>)
    ensures a + b + c == a + c + b
  {}

  function NewWorker(jobs: seq<Job>): Worker {
    Worker(jobs, [], true, [], Looping)
  }

  function Deal(lst: seq<Job>, n: nat): seq<Worker> {
    seq(n, i requires 0 <= i < n => NewWorker(Every(lst, i, n)))
  }

  lemma {:induction false} EverySnoc<T>(lst: seq<T>, x: T, i: nat, n: nat)
    requires n > 0
    ensures Every(lst + [x], i, n) == Every(lst, i, n) + if i <= |lst| && (|lst| - i) % n == 0 then [x] else []
    decreases |lst| - i
  {
    var more := lst + [x];
    if i > |lst| {
    } else if i == |lst| {
      assert more[i] == x && Every(more, i + n, n) == [];
    } else {
      EverySnoc(lst, x, i + n, n);
      ModShift(|lst| - i, n);
      assert i + n > |lst| ==> (|lst| - i) % n != 0;
    }
  }

  // Dealing the jobs out gives each of them to one process.
  lemma {:induction false} DealConserves(lst: seq<Job>, n: nat)
    requires n > 0
    ensures AllHeld(Deal(lst, n)) == multiset(lst)
    decreases |lst|
  {
    hide AllHeld;
    if lst == [] {
      NothingHeld(Deal([], n));
    } else {
      var few, x := lst[..|lst| - 1], lst[|lst| - 1];
      assert lst == few + [x];
      DealConserves(few, n);
      var j := |few| % n;
      var w := NewWorker(Every(few, j, n) + [x]);
      DealSnoc(few, x, n);
      HeldAfter(Deal(few, n), j, w);
      assert Held(w) == Held(Deal(few, n)[j]) + multiset{x};
      Cancel(AllHeld(Deal(lst, n)), Held(Deal(few, n)[j]), AllHeld(Deal(few, n)), multiset{x});
    }
  }

  lemma {:induction false} Cancel(a: multiset<Job>, b: multiset<Job>, c: multiset<Job>, d: multiset<Job>)
    requires a + b == c + (b + d)
    ensures a == c + d
  {
    forall x ensures a[x] == (c + d)[x] {
      assert (a + b)[x] == (c + (b + d))[x];
    }
  }

  lemma {:induction false} DealSnoc(few: seq<Job>, x: Job, n: nat)
    requires n > 0
    ensures var j := |few| % n; Deal(few + [x], n) == Deal(few, n)[j := NewWorker(Every(few, j, n) + [x])]
  {
    var j := |few| % n;
    forall i | 0 <= i < n ensures Every(few + [x], i, n) == if i == j then Every(few, j, n) + [x]
      else Every(few, i, n) {
      EverySnoc(few, x, i, n);
      SameResidue(|few|, i, n);
      SmallResidue(|few|, n);
    }
  }

  lemma {:induction false} SmallResidue(a: nat, n: nat)
    requires n > 0
    ensures a < n ==> a % n == a
  {}

  lemma {:induction false} NothingHeld(workers: seq<Worker>)
    requires forall w :: w in workers ==> w.jobs == [] && w.pending == [] && w.buffer == []
    ensures AllHeld(workers) == multiset{}
  {
    if workers != [] {
      NothingHeld(workers[..|workers| - 1]);
    }
  }

  lemma {:induction false} SameResidue(a: int, i: int, n: nat)
    requires 0 <= i < n
    ensures (a - i) % n == 0 <==> i == a % n
  {
    var q := (a - i) / n;
    assert a - i == n * q + (a - i) % n;
    if (a - i) % n == 0 {
      ModUnique(a, n, q, i);
    }
    if i == a % n {
      ModUnique(a - i, n, a / n, 0);
    }
  }

  lemma {:induction false} ModShift(a: int, n: nat)
    requires n > 0
    ensures (a - n) % n == a % n
    ensures 0 < a < n ==> a % n != 0
  {
    assert a - n == n * (a / n - 1) + a % n;
    ModUnique(a - n, n, a / n - 1, a % n);
  }

  lemma {:induction false} ModUnique(a: int, n: nat, q: int, r: int)
    requires n > 0 && a == n * q + r && 0 <= r < n
    ensures a % n == r
  {
    var d := a / n - q;
    assert n * d == r - a % n;
    Multiples(n, d);
  }

  lemma {:induction false} Multiples(n: int, d: int)
    requires n > 0
    ensures d >= 1 ==> n * d >= n
    ensures d <= -1 ==> n * d <= -n
  {
    assert n * d == n + n * (d - 1) == -n + n * (d + 1);
    assert d >= 1 ==> n * (d - 1) >= 0;
    assert d <= -1 ==> n * (d + 1) <= 0;
  }

  // ----- the steps of a process -----

  predicate IsLooping(p: Pipeline, i: nat) {
    i < |p.workers| && p.workers[i].status == Looping
  }

  predicate IsUp(p: Pipeline, i: nat) {
    i < |p.workers| && p.workers[i].status != Gone
  }

  function PopJob(w: Worker, ok: bool): Worker {
    if w.jobs == [] then w.(havejobs := false)
    else
      var n := |w.jobs| - 1;
      w.(jobs := w.jobs[..n], pending := w.pending + [if ok then Parsed(w.jobs[n]) else Failed(w.jobs[n])])
  }

  function PutResult(w: Worker, full: bool): Worker {
    if w.pending == [] || full then w
    else
      var n := |w.pending| - 1;
      w.(pending := w.pending[..n], buffer := w.buffer + [w.pending[n]])
  }

  // One iteration of the loop in `realrun`.
  function AfterTurn(p: Pipeline, i: nat, ok: bool, full: bool): Pipeline
    requires IsLooping(p, i)
  {
    p.(workers := p.workers[i := PutResult(PopJob(p.workers[i], ok), full)])
  }

  // The loop is left: by its test, because of `quit`, or by a signal. What the lists still hold is
  // not looked at again.
  function AfterLeave(p: Pipeline, i: nat): Pipeline
    requires IsLooping(p, i)
  {
    var w := p.workers[i];
    p.(workers := p.workers[i := w.(jobs := [], pending := [], status := Leaving)], lost :=
      p.lost + w.jobs + JobsOf(w.pending))
  }

  // One result gets from the process into the queue.
  function AfterFeed(p: Pipeline, i: nat): Pipeline
    requires IsUp(p, i)
  {
    var w := p.workers[i];
    if w.buffer == [] then p
    else p.(workers := p.workers[i := w.(buffer := w.buffer[1..])], queue := p.queue + [w.buffer[0]])
  }

  // `join_thread` returns when the buffer is empty; then the process ends.
  function AfterExit(p: Pipeline, i: nat): Pipeline
    requires IsUp(p, i) && p.workers[i].status == Leaving && p.workers[i].buffer == []
  {
    p.(workers := p.workers[i := p.workers[i].(status := Gone)])
  }

  function AfterKill(p: Pipeline, i: nat): Pipeline
    requires IsUp(p, i)
  {
    var w := p.workers[i];
    p.(workers := p.workers[i := Worker([], [], w.havejobs, [], Gone)],
       lost := p.lost + w.jobs + JobsOf(w.pending) + JobsOf(w.buffer))
  }

  // ----- the steps of the consumer -----

  // Process `i` is made to end; `late` results still get out of it.
  function AfterEnd(p: Pipeline, i: nat, late: nat): Pipeline
    decreases late
  {
    if !IsUp(p, i) then p else if late == 0 then AfterKill(p, i) else AfterEnd(AfterFeed(p, i), i, late - 1)
  }

  function AfterEnds(p: Pipeline, i: nat, late: seq<nat>): Pipeline
    decreases |p.workers| - i
  {
    if i >= |p.workers| then p
    else
      EndKeepsCount(p, i, if i < |late| then late[i] else 0);
      AfterEnds(AfterEnd(p, i, if i < |late| then late[i] else 0), i + 1, late)
  }

  lemma {:induction false} EndKeepsCount(p: Pipeline, i: nat, late: nat)
    ensures |AfterEnd(p, i, late).workers| == |p.workers|
    decreases late
  {
    if IsUp(p, i) && late > 0 {
      EndKeepsCount(AfterFeed(p, i), i, late - 1);
    }
  }

  // `shutdown`: the queue is emptied, then the processes are told to quit and made to end.
  function AfterShutdown(p: Pipeline, late: seq<nat>): Pipeline {
    if p.toparse == 0 || p.haveshutdown then p
    else AfterEnds(p.(haveshutdown := true, drained := p.drained + p.queue, queue := [], quit := true, closed := true),
      0, late)
  }

  // Why a call of `parse_next` returns.
  datatype Why = Item | TimedOut | Complete | NotAllParsed | ProcessClosed | RecipeFailed

  datatype Progress = Waiting | Returned(why: Why)

  predicate More(why: Why) {
    why == Item || why == TimedOut
  }

  function Fail(p: Pipeline, late: seq<nat>): Pipeline {
    AfterShutdown(p.(source := Exhausted, error := p.error + 1), late)
  }

  // StopIteration, or the ParseError at the end of `parse_generator`
  function AtEnd(p: Pipeline, late: seq<nat>): (Pipeline, Progress) {
    if p.parsed >= p.toparse then (AfterShutdown(p.(source := Exhausted), late), Returned(Complete))
    else (Fail(p, late), Returned(NotAllParsed))
  }

  predicate MayReap(p: Pipeline, gone: set<nat>) {
    gone <= p.processes && forall i :: i in gone ==> i < |p.workers| && p.workers[i].status == Gone
  }

  // From the loop test of `parse_generator` on. `gone` are the processes found not to be alive.
  function AfterTest(p: Pipeline, empty: bool, gone: set<nat>, late: seq<nat>): (Pipeline, Progress) {
    if p.processes == {} && empty then AtEnd(p, late)
    else if p.processes != {} && p.closed then (Fail(p, late), Returned(ProcessClosed))
    else
      var q := p.(processes := p.processes - gone);
      if q.parsed >= q.toparse then AtEnd(q, late) else (q.(source := InGet), Waiting)
  }

  // `parse_next`, up to where it waits for the queue.
  function AfterResume(p: Pipeline, gone: set<nat>, late: seq<nat>): (Pipeline, Progress)
    requires p.source != InGet
  {
    match p.source
    case Cached(left) =>
      if left > 0 then (p.(source := Cached(left - 1), cached := p.cached + 1), Returned(Item))
      else if p.toparse == 0 then AtEnd(p, late)
      else AfterTest(p, false, gone, late)
    case AtTest(empty) => AfterTest(p, empty, gone, late)
    case Exhausted => (AfterShutdown(p, late), Returned(Complete))
  }

  // The rest of it: `get` finds a result, or has waited long enough.
  function AfterGet(p: Pipeline, late: seq<nat>): (Pipeline, Why)
    requires p.source == InGet
  {
    if p.queue == [] then (p.(source := AtTest(true)), TimedOut)
    else
      var q := p.(source := AtTest(false), queue := p.queue[1..], consumed := p.consumed + [p.queue[0]]);
      if p.queue[0].Parsed? then (q.(parsed := q.parsed + 1), Item)
      else (AfterShutdown(q.(error := q.error + 1), late), RecipeFailed)
  }

  // A KeyboardInterrupt inside `get` ends the generator and passes `parse_next` by.
  function AfterInterrupt(p: Pipeline): Pipeline
    requires p.source == InGet
  {
    p.(source := Exhausted, interrupted := true)
  }

  // ----- runs -----

  datatype Event =
    | Turn(i: nat, ok: bool, full: bool) | Leave(i: nat) | Feed(i: nat) | Exit(i: nat) | Kill(i: nat)
    | Resume(gone: set<nat>, late: seq<nat>) | Get(late: seq<nat>) | Shutdown(late: seq<nat>) | Interrupt

  predicate Enabled(p: Pipeline, e: Event) {
    match e
    case Turn(i, _, _) => IsLooping(p, i)
    case Leave(i) => IsLooping(p, i)
    case Feed(i) => IsUp(p, i)
    case Exit(i) => IsUp(p, i) && p.workers[i].status == Leaving && p.workers[i].buffer == []
    case Kill(i) => IsUp(p, i)
    case Resume(gone, _) => p.source != InGet && MayReap(p, gone)
    case Get(_) => p.source == InGet
    case Shutdown(_) => true
    case Interrupt => p.source == InGet
  }

  function After(p: Pipeline, e: Event): Pipeline
    requires Enabled(p, e)
  {
    match e
    case Turn(i, ok, full) => AfterTurn(p, i, ok, full)
    case Leave(i) => AfterLeave(p, i)
    case Feed(i) => AfterFeed(p, i)
    case Exit(i) => AfterExit(p, i)
    case Kill(i) => AfterKill(p, i)
    case Resume(gone, late) => AfterResume(p, gone, late).0
    case Get(late) => AfterGet(p, late).0
    case Shutdown(late) => AfterShutdown(p, late)
    case Interrupt => AfterInterrupt(p)
  }

  function UpTo(n: nat): (s: set<nat>)
    ensures forall i: nat :: i in s <==> i < n
  {
    if n == 0 then {} else UpTo(n - 1) + {n - 1}
  }

  // The parser as it starts: the jobs are dealt out to `threads` processes, but to no more than
  // there are jobs. With no process at all nobody gets them.
  function Start(willparse: seq<Job>, fromcache: nat, threads: nat): Pipeline {
    var n := if threads < |willparse| then threads else |willparse|;
    Pipeline(Deal(willparse, n), [], false, UpTo(n), false, Cached(fromcache),
             |willparse|, 0, 0, 0, false, false, [], [], if n == 0 then willparse else [])
  }

  ghost predicate Reaches(p: Pipeline, events: seq<Event>, q: Pipeline)
    decreases |events|
  {
    if events == [] then p == q else Enabled(p, events[0]) && Reaches(After(p, events[0]), events[1..], q)
  }

  // ----- conservation -----

  // All jobs: held by processes, in the queue, consumed, drained at shutdown, or lost.
  function Everything(p: Pipeline): multiset<Job> {
    AllHeld(p.workers) + multiset(JobsOf(p.queue)) + multiset(JobsOf(p.consumed)) + multiset(JobsOf(p.drained))
      + multiset(p.lost)
  }

  // What is not in the processes.
  function Outside(p: Pipeline): multiset<Job> {
    multiset(JobsOf(p.queue)) + multiset(JobsOf(p.consumed)) + multiset(JobsOf(p.drained)) + multiset(p.lost)
  }

  lemma {:induction false} JobsOfSnoc(a: seq<Result>, r: Result)
    ensures multiset(JobsOf(a + [r])) == multiset(JobsOf(a)) + multiset{r.job}
  {
    JobsOfConcat(a, [r]);
  }

  lemma {:induction false} JobsOfFirst(a: seq<Result>)
    requires a != []
    ensures multiset(JobsOf(a)) == multiset{a[0].job} + multiset(JobsOf(a[1..]))
  {
    assert JobsOf(a) == [a[0].job] + JobsOf(a[1..]);
  }

  lemma {:induction false} TurnHolds(w: Worker, ok: bool, full: bool)
    ensures Held(PutResult(PopJob(w, ok), full)) == Held(w)
  {
    PopHolds(w, ok);
    PutHolds(PopJob(w, ok), full);
  }

  lemma {:induction false} PopHolds(w: Worker, ok: bool)
    ensures Held(PopJob(w, ok)) == Held(w)
  {
    hide JobsOf;
    if w.jobs != [] {
      var n := |w.jobs| - 1;
      assert w.jobs == w.jobs[..n] + [w.jobs[n]];
      JobsOfSnoc(w.pending, if ok then Parsed(w.jobs[n]) else Failed(w.jobs[n]));
    }
  }

  lemma {:induction false} PutHolds(w: Worker, full: bool)
    ensures Held(PutResult(w, full)) == Held(w)
  {
    hide JobsOf;
    if w.pending != [] && !full {
      var n := |w.pending| - 1;
      assert w.pending == w.pending[..n] + [w.pending[n]];
      JobsOfSnoc(w.pending[..n], w.pending[n]);
      JobsOfSnoc(w.buffer, w.pending[n]);
    }
  }

  // A change of one process that moves `moved` out of it.
  lemma {:induction false} MovedOut(p: Pipeline, q: Pipeline, i: nat, w: Worker, moved: multiset<Job>)
    requires i < |p.workers| && q.workers == p.workers[i := w]
    requires Held(p.workers[i]) == Held(w) + moved && Outside(q) == Outside(p) + moved
    ensures Everything(q) == Everything(p)
  {
    hide AllHeld, Held, JobsOf;
    HeldAfter(p.workers, i, w);
    Transfer(AllHeld(p.workers), AllHeld(q.workers), Held(p.workers[i]), Held(w), moved);
    assert Everything(p) == AllHeld(p.workers) + Outside(p);
    assert Everything(q) == AllHeld(q.workers) + Outside(q);
  }

  lemma {:induction false} Transfer(a: multiset<Job>, b: multiset<Job>, c: multiset<Job>, d: multiset<Job>,
                                    m: multiset<Job>)
    requires b + c == a + d && c == d + m
    ensures a == b + m
  {
    forall x ensures a[x] == (b + m)[x] {
      assert (b + c)[x] == (a + d)[x];
    }
  }

  lemma {:induction false} FeedConserves(p: Pipeline, i: nat)
    requires IsUp(p, i)
    ensures Everything(AfterFeed(p, i)) == Everything(p)
  {
    hide JobsOf;
    var w := p.workers[i];
    if w.buffer != [] {
      JobsOfFirst(w.buffer);
      JobsOfSnoc(p.queue, w.buffer[0]);
      MovedOut(p, AfterFeed(p, i), i, w.(buffer := w.buffer[1..]), multiset{w.buffer[0].job});
    }
  }

  lemma {:induction false} KillConserves(p: Pipeline, i: nat)
    requires IsUp(p, i)
    ensures Everything(AfterKill(p, i)) == Everything(p)
  {
    MovedOut(p, AfterKill(p, i), i, Worker([], [], p.workers[i].havejobs, [], Gone), Held(p.workers[i]));
  }

  lemma {:induction false} LeaveConserves(p: Pipeline, i: nat)
    requires IsLooping(p, i)
    ensures Everything(AfterLeave(p, i)) == Everything(p)
  {
    var w := p.workers[i];
    MovedOut(p, AfterLeave(p, i), i, w.(jobs := [], pending := [], status := Leaving),
      multiset(w.jobs) + multiset(JobsOf(w.pending)));
  }

  lemma {:induction false} TurnConserves(p: Pipeline, i: nat, ok: bool, full: bool)
    requires IsLooping(p, i)
    ensures Everything(AfterTurn(p, i, ok, full)) == Everything(p)
  {
    TurnHolds(p.workers[i], ok, full);
    MovedOut(p, AfterTurn(p, i, ok, full), i, PutResult(PopJob(p.workers[i], ok), full), multiset{});
  }

  lemma {:induction false} ExitConserves(p: Pipeline, i: nat)
    requires Enabled(p, Exit(i))
    ensures Everything(AfterExit(p, i)) == Everything(p)
  {
    MovedOut(p, AfterExit(p, i), i, p.workers[i].(status := Gone), multiset{});
  }

  lemma {:induction false} EndConserves(p: Pipeline, i: nat, late: nat)
    ensures Everything(AfterEnd(p, i, late)) == Everything(p)
    decreases late
  {
    hide Everything, AfterKill, AfterFeed;
    if IsUp(p, i) {
      if late == 0 {
        KillConserves(p, i);
      } else {
        FeedConserves(p, i);
        EndConserves(AfterFeed(p, i), i, late - 1);
      }
    }
  }

  lemma {:induction false} EndsConserve(p: Pipeline, i: nat, late: seq<nat>)
    ensures Everything(AfterEnds(p, i, late)) == Everything(p)
    decreases |p.workers| - i
  {
    hide Everything, AfterEnd;
    if i < |p.workers| {
      var k := if i < |late| then late[i] else 0;
      EndKeepsCount(p, i, k);
      EndConserves(p, i, k);
      EndsConserve(AfterEnd(p, i, k), i + 1, late);
    }
  }

  lemma {:induction false} ShutdownConserves(p: Pipeline, late: seq<nat>)
    ensures Everything(AfterShutdown(p, late)) == Everything(p)
  {
    if p.toparse != 0 && !p.haveshutdown {
      JobsOfConcat(p.drained, p.queue);
      EndsConserve(p.(haveshutdown := true, drained := p.drained + p.queue, queue := [], quit := true, closed := true),
        0, late);
    }
  }

  lemma {:induction false} SameContent(p: Pipeline, q: Pipeline)
    requires p.workers == q.workers && p.queue == q.queue && p.consumed == q.consumed
    requires p.drained == q.drained && p.lost == q.lost
    ensures Everything(p) == Everything(q)
  {}

  lemma {:induction false} AtEndConserves(p: Pipeline, late: seq<nat>)
    ensures Everything(AtEnd(p, late).0) == Everything(p) && Everything(Fail(p, late)) == Everything(p)
  {
    hide Everything, AfterShutdown;
    var done := p.(source := Exhausted);
    var failed := done.(error := p.error + 1);
    SameContent(p, done);
    SameContent(p, failed);
    ShutdownConserves(done, late);
    ShutdownConserves(failed, late);
  }

  lemma {:induction false} ResumeConserves(p: Pipeline, gone: set<nat>, late: seq<nat>)
    requires p.source != InGet
    ensures Everything(AfterResume(p, gone, late).0) == Everything(p)
  {
    hide Everything, AfterShutdown, AtEnd, Fail;
    ShutdownConserves(p, late);
    AtEndConserves(p, late);
    var q := p.(processes := p.processes - gone);
    AtEndConserves(q, late);
    SameContent(p, q);
    SameContent(p, q.(source := InGet));
    if p.source.Cached? && p.source.left > 0 {
      SameContent(p, AfterResume(p, gone, late).0);
    }
  }

  lemma {:induction false} Regroup(a: multiset<Job>, b: multiset<Job>, c: multiset<Job>, d: multiset<Job>)
    ensures a + (b + c) + d == a + c + (d + b)
  {}

  lemma {:induction false} GetConserves(p: Pipeline, late: seq<nat>)
    requires p.source == InGet
    ensures Everything(AfterGet(p, late).0) == Everything(p)
  {
    hide AfterShutdown, AllHeld, JobsOf;
    if p.queue != [] {
      JobsOfFirst(p.queue);
      JobsOfSnoc(p.consumed, p.queue[0]);
      var q := p.(source := AtTest(false), queue := p.queue[1..], consumed := p.consumed + [p.queue[0]]);
      Swap(AllHeld(p.workers), multiset{p.queue[0].job}, multiset(JobsOf(q.queue)));
      Regroup(AllHeld(p.workers), multiset{p.queue[0].job}, multiset(JobsOf(q.queue)), multiset(JobsOf(p.consumed)));
      assert Everything(q) == Everything(p);
      ShutdownConserves(q.(error := q.error + 1), late);
    }
  }

  // No step makes a job disappear or doubles one.
  lemma {:induction false} StepConserves(p: Pipeline, e: Event)
    requires Enabled(p, e)
    ensures Everything(After(p, e)) == Everything(p)
  {
    match e
    case Turn(i, ok, full) => TurnConserves(p, i, ok, full);
    case Leave(i) => LeaveConserves(p, i);
    case Feed(i) => FeedConserves(p, i);
    case Exit(i) => ExitConserves(p, i);
    case Kill(i) => KillConserves(p, i);
    case Resume(gone, late) => ResumeConserves(p, gone, late);
    case Get(late) => GetConserves(p, late);
    case Shutdown(late) => ShutdownConserves(p, late);
    case Interrupt =>
  }

  // ----- what holds in every state of every run -----

  function CountParsed(results: seq<Result>): nat {
    if results == [] then 0 else CountParsed(results[..|results| - 1]) + if results[|results| - 1].Parsed? then 1 else 0
  }

  predicate EndedIsEmpty(workers: seq<Worker>) {
    forall i :: 0 <= i < |workers| && workers[i].status != Looping ==>
      workers[i].jobs == [] && workers[i].pending == [] && (workers[i].status == Gone ==> workers[i].buffer == [])
  }

  predicate AllGone(workers: seq<Worker>) {
    forall i :: 0 <= i < |workers| ==> workers[i].status == Gone
  }

  // A process that the consumer has taken off its list has ended.
  predicate Reaped(workers: seq<Worker>, processes: set<nat>) {
    && (forall i :: i in processes ==> i < |workers|)
    && (forall i: nat :: i < |workers| && i !in processes ==> workers[i].status == Gone)
  }

  predicate Counts(p: Pipeline) {
    && p.parsed == CountParsed(p.consumed) <= |p.consumed|
    && (p.parsed < |p.consumed| ==> p.error > 0)
    && (p.error > 0 && p.toparse > 0 ==> p.haveshutdown)
    && (p.source == Exhausted && p.error == 0 && !p.interrupted ==> p.parsed >= p.toparse)
  }

  predicate ShutDown(p: Pipeline) {
    && p.closed == p.quit == p.haveshutdown
    && (p.haveshutdown ==> AllGone(p.workers))
    && (!p.haveshutdown ==> p.drained == [])
  }

  // The last `get` came back with nothing after the last process had been taken off the list.
  predicate QueueSettled(p: Pipeline) {
    p.source == AtTest(true) && p.processes == {} ==> p.queue == []
  }

  predicate Inv(p: Pipeline) {
    && EndedIsEmpty(p.workers) && Reaped(p.workers, p.processes) && Counts(p) && ShutDown(p) && QueueSettled(p)
    && (p.toparse == 0 ==> p.workers == [])
    && (p.source.AtTest? || p.source == InGet ==> p.toparse > 0)
  }

  lemma {:induction false} StartIsInv(willparse: seq<Job>, fromcache: nat, threads: nat)
    ensures Inv(Start(willparse, fromcache, threads))
  {
    hide Every;
  }

  lemma {:induction false} StartHoldsAll(willparse: seq<Job>, fromcache: nat, threads: nat)
    ensures Everything(Start(willparse, fromcache, threads)) == multiset(willparse)
  {
    hide AllHeld, Every;
    var n := if threads < |willparse| then threads else |willparse|;
    var none: multiset<Job> := multiset{};
    if n > 0 {
      DealConserves(willparse, n);
      assert multiset(willparse) + none + none + none + none == multiset(willparse);
    } else {
      NothingHeld(Deal(willparse, 0));
      assert none + none + none + none + multiset(willparse) == multiset(willparse);
    }
  }

  // Making processes `i` and later end changes nothing but those processes, the queue and what is
  // lost, and nothing at all when they have ended already.
  ghost predicate OnlyEnds(p: Pipeline, q: Pipeline) {
    && q == p.(workers := q.workers, queue := q.queue, lost := q.lost)
    && |q.workers| == |p.workers|
    && (forall i :: 0 <= i < |p.workers| && p.workers[i].status == Gone ==> q.workers[i] == p.workers[i])
    && (EndedIsEmpty(p.workers) ==> EndedIsEmpty(q.workers))
    && (AllGone(p.workers) ==> q == p)
  }

  lemma {:induction false} StepOnlyEnds(p: Pipeline, i: nat)
    requires IsUp(p, i)
    ensures OnlyEnds(p, AfterFeed(p, i)) && OnlyEnds(p, AfterKill(p, i)) && IsUp(AfterFeed(p, i), i)
  {
    hide JobsOf;
  }

  lemma {:induction false} EndOnlyEnds(p: Pipeline, i: nat, late: nat)
    ensures OnlyEnds(p, AfterEnd(p, i, late))
    ensures i < |p.workers| ==> AfterEnd(p, i, late).workers[i].status == Gone
    decreases late
  {
    hide AfterFeed, EndedIsEmpty, JobsOf;
    if IsUp(p, i) {
      StepOnlyEnds(p, i);
      if late > 0 {
        EndOnlyEnds(AfterFeed(p, i), i, late - 1);
      }
    }
  }

  lemma {:induction false} EndsOnlyEnd(p: Pipeline, i: nat, late: seq<nat>)
    requires forall j :: 0 <= j < i && j < |p.workers| ==> p.workers[j].status == Gone
    ensures OnlyEnds(p, AfterEnds(p, i, late)) && AllGone(AfterEnds(p, i, late).workers)
    decreases |p.workers| - i
  {
    if i < |p.workers| {
      var k := if i < |late| then late[i] else 0;
      EndOnlyEnds(p, i, k);
      EndsOnlyEnd(AfterEnd(p, i, k), i + 1, late);
    }
  }

  lemma {:induction false} ShutdownIs(p: Pipeline, late: seq<nat>)
    requires p.toparse > 0 && !p.haveshutdown
    ensures var ready := p.(haveshutdown := true, drained := p.drained + p.queue, queue := [], quit := true, closed :=
      true);
      OnlyEnds(ready, AfterShutdown(p, late)) && AllGone(AfterShutdown(p, late).workers)
  {
    EndsOnlyEnd(p.(haveshutdown := true, drained := p.drained + p.queue, queue := [], quit := true, closed := true), 0,
      late);
  }

  lemma {:induction false} ShutdownKeeps(p: Pipeline, late: seq<nat>)
    requires EndedIsEmpty(p.workers) && Reaped(p.workers, p.processes) && ShutDown(p) && QueueSettled(p)
    requires p.parsed == CountParsed(p.consumed) <= |p.consumed| && (p.parsed < |p.consumed| ==> p.error > 0)
    requires p.source == Exhausted && p.error == 0 && !p.interrupted ==> p.parsed >= p.toparse
    requires p.toparse == 0 ==> p.workers == [] && !p.source.AtTest? && p.source != InGet
    ensures Inv(AfterShutdown(p, late))
    ensures p.toparse > 0 ==> AfterShutdown(p, late).haveshutdown
  {
    if p.toparse > 0 && !p.haveshutdown {
      ShutdownIs(p, late);
      assert p.processes == {} ==> AllGone(p.workers);
    }
  }

  lemma {:induction false} WorkerStepKeeps(p: Pipeline, e: Event)
    requires Inv(p) && Enabled(p, e) && (e.Turn? || e.Leave? || e.Feed? || e.Exit? || e.Kill?)
    ensures Inv(After(p, e))
  {
    assert !p.haveshutdown || AllGone(p.workers);
    assert p.processes == {} ==> AllGone(p.workers);
  }

  lemma {:induction false} AtEndKeeps(p: Pipeline, late: seq<nat>)
    requires Inv(p)
    ensures Inv(AtEnd(p, late).0) && Inv(Fail(p, late))
  {
    hide EndedIsEmpty, CountParsed, Reaped;
    ShutdownKeeps(p.(source := Exhausted, error := p.error + 1), late);
    if p.parsed >= p.toparse {
      ShutdownKeeps(p.(source := Exhausted), late);
    }
  }

  lemma {:induction false} TestKeeps(p: Pipeline, empty: bool, gone: set<nat>, late: seq<nat>)
    requires Inv(p) && p.toparse > 0 && MayReap(p, gone) && p.source != Exhausted
    ensures Inv(AfterTest(p, empty, gone, late).0)
  {
    hide EndedIsEmpty, CountParsed, AtEnd, Fail;
    AtEndKeeps(p, late);
    var q := p.(processes := p.processes - gone);
    var r := q.(source := InGet);
    assert Reaped(q.workers, q.processes) && Inv(r);
    if q.parsed >= q.toparse {
      AtEndFromGet(r, q, late);
    }
  }

  // `AtEnd` does not look at where the source stands.
  lemma {:induction false} AtEndFromGet(r: Pipeline, q: Pipeline, late: seq<nat>)
    requires Inv(r) && r == q.(source := InGet)
    ensures Inv(AtEnd(q, late).0)
  {
    AtEndKeeps(r, late);
    assert q.(source := Exhausted) == r.(source := Exhausted);
    assert q.(source := Exhausted, error := q.error + 1) == r.(source := Exhausted, error := r.error + 1);
  }

  lemma {:induction false} ResumeKeeps(p: Pipeline, gone: set<nat>, late: seq<nat>)
    requires Inv(p) && Enabled(p, Resume(gone, late))
    ensures Inv(AfterResume(p, gone, late).0)
  {
    hide AtEnd, AfterTest, AfterShutdown, EndedIsEmpty, Reaped, CountParsed;
    AtEndKeeps(p, late);
    if p.source.AtTest? || (p.source.Cached? && p.toparse > 0) {
      TestKeeps(p, p.source.AtTest? && p.source.empty, gone, late);
    } else if p.source == Exhausted {
      ShutdownKeeps(p, late);
    }
  }

  lemma {:induction false} CountSnoc(results: seq<Result>, r: Result)
    ensures CountParsed(results + [r]) == CountParsed(results) + if r.Parsed? then 1 else 0
  {
    assert (results + [r])[..|results|] == results;
  }

  lemma {:induction false} GetKeeps(p: Pipeline, late: seq<nat>)
    requires Inv(p) && p.source == InGet
    ensures Inv(AfterGet(p, late).0)
  {
    hide EndedIsEmpty, CountParsed, AfterShutdown;
    if p.queue != [] {
      CountSnoc(p.consumed, p.queue[0]);
      var q := p.(source := AtTest(false), queue := p.queue[1..], consumed := p.consumed + [p.queue[0]]);
      if p.queue[0].Failed? {
        ShutdownKeeps(q.(error := q.error + 1), late);
      }
    }
  }

  lemma {:induction false} StepKeeps(p: Pipeline, e: Event)
    requires Inv(p) && Enabled(p, e)
    ensures Inv(After(p, e)) && After(p, e).toparse == p.toparse
  {
    hide Inv, AfterShutdown, AfterResume, AfterGet;
    SameToparse(p, e);
    match e
    case Resume(gone, late) => ResumeKeeps(p, gone, late);
    case Get(late) => GetKeeps(p, late);
    case Shutdown(late) => InvIsEnough(p); ShutdownKeeps(p, late);
    case Interrupt => InterruptKeeps(p);
    case _ => WorkerStepKeeps(p, e);
  }

  lemma {:induction false} InterruptKeeps(p: Pipeline)
    requires Inv(p) && p.source == InGet
    ensures Inv(AfterInterrupt(p))
  {}

  lemma {:induction false} InvIsEnough(p: Pipeline)
    requires Inv(p)
    ensures EndedIsEmpty(p.workers) && Reaped(p.workers, p.processes) && ShutDown(p) && QueueSettled(p)
    ensures p.parsed == CountParsed(p.consumed) <= |p.consumed| && (p.parsed < |p.consumed| ==> p.error > 0)
    ensures p.source == Exhausted && p.error == 0 && !p.interrupted ==> p.parsed >= p.toparse
    ensures p.toparse == 0 ==> p.workers == [] && !p.source.AtTest? && p.source != InGet
  {}

  lemma {:induction false} SameToparse(p: Pipeline, e: Event)
    requires Enabled(p, e)
    ensures After(p, e).toparse == p.toparse
  {
    hide AfterShutdown;
    forall q, late ensures AfterShutdown(q, late).toparse == q.toparse {
      ShutdownToparse(q, late);
    }
  }

  lemma {:induction false} ShutdownToparse(p: Pipeline, late: seq<nat>)
    ensures AfterShutdown(p, late).toparse == p.toparse
  {
    if p.toparse > 0 && !p.haveshutdown {
      ShutdownIs(p, late);
    }
  }

  // ----- the theorems -----

  // In every run, jobs left, held by processes, queued, consumed, drained and lost add up to the
  // recipes that were to be parsed.
  lemma {:induction false} RunConserves(willparse: seq<Job>, p: Pipeline, events: seq<Event>, q: Pipeline)
    requires Inv(p) && Everything(p) == multiset(willparse) && p.toparse == |willparse| && Reaches(p, events, q)
    ensures Inv(q) && Everything(q) == multiset(willparse) && q.toparse == |willparse|
    decreases |events|
  {
    if events != [] {
      StepKeeps(p, events[0]);
      StepConserves(p, events[0]);
      RunConserves(willparse, After(p, events[0]), events[1..], q);
    }
  }

  // A state that some run of a parser reaches, with `willparse` to parse and `fromcache` recipes in the cache.
  ghost predicate Reachable(willparse: seq<Job>, fromcache: nat, p: Pipeline) {
    exists threads: nat, events :: Reaches(Start(willparse, fromcache, threads), events, p)
  }

  lemma {:induction false} ReachableKeeps(willparse: seq<Job>, fromcache: nat, p: Pipeline)
    requires Reachable(willparse, fromcache, p)
    ensures Inv(p) && Everything(p) == multiset(willparse) && p.toparse == |willparse|
  {
    var threads: nat, events :| Reaches(Start(willparse, fromcache, threads), events, p);
    StartIsInv(willparse, fromcache, threads);
    StartHoldsAll(willparse, fromcache, threads);
    RunConserves(willparse, Start(willparse, fromcache, threads), events, p);
  }

  lemma {:induction false} StartIsReachable(willparse: seq<Job>, fromcache: nat, threads: nat)
    ensures Reachable(willparse, fromcache, Start(willparse, fromcache, threads))
  {
    var p := Start(willparse, fromcache, threads);
    assert Reaches(p, [], p);
  }

  lemma {:induction false} ReachesOneMore(p: Pipeline, events: seq<Event>, q: Pipeline, e: Event)
    requires Reaches(p, events, q) && Enabled(q, e)
    ensures Reaches(p, events + [e], After(q, e))
    decreases |events|
  {
    if events == [] {
      assert events + [e] == [e] && [e][1..] == [];
    } else {
      assert (events + [e])[1..] == events[1..] + [e];
      ReachesOneMore(After(p, events[0]), events[1..], q, e);
    }
  }

  lemma {:induction false} ReachableStep(willparse: seq<Job>, fromcache: nat, p: Pipeline, e: Event)
    requires Reachable(willparse, fromcache, p) && Enabled(p, e)
    ensures Reachable(willparse, fromcache, After(p, e))
  {
    var threads: nat, events :| Reaches(Start(willparse, fromcache, threads), events, p);
    ReachesOneMore(Start(willparse, fromcache, threads), events, p, e);
    assert Reaches(Start(willparse, fromcache, threads), events + [e], After(p, e));
  }

  // The consumer waits only while something is missing, and an interrupt hits only a consumer that waits.
  predicate Waits(p: Pipeline) {
    (p.source == InGet ==> p.parsed < p.toparse) && (p.interrupted ==> p.source == Exhausted && p.parsed < p.toparse)
  }

  lemma {:induction false} StepWaits(p: Pipeline, e: Event)
    requires Waits(p) && Enabled(p, e)
    ensures Waits(After(p, e))
  {
    hide AfterShutdown;
    forall q, late ensures var r := AfterShutdown(q, late);
      r.source == q.source && r.interrupted == q.interrupted && r.parsed == q.parsed && r.toparse == q.toparse
    {
      ShutdownLeaves(q, late);
      ShutdownCounts(q, late);
    }
  }

  lemma {:induction false} RunWaits(p: Pipeline, events: seq<Event>, q: Pipeline)
    requires Waits(p) && Reaches(p, events, q)
    ensures Waits(q)
    decreases |events|
  {
    if events != [] {
      StepWaits(p, events[0]);
      RunWaits(After(p, events[0]), events[1..], q);
    }
  }

  lemma {:induction false} ReachableWaits(willparse: seq<Job>, fromcache: nat, p: Pipeline)
    requires Reachable(willparse, fromcache, p)
    ensures Waits(p)
  {
    var threads: nat, events :| Reaches(Start(willparse, fromcache, threads), events, p);
    RunWaits(Start(willparse, fromcache, threads), events, p);
  }

  // Recipes from the cache are taken one by one, and all of them before anything is parsed.
  predicate LoadsCached(p: Pipeline, fromcache: nat) {
    if p.source.Cached? then p.cached + p.source.left == fromcache else p.cached == fromcache
  }

  lemma {:induction false} StepLoads(p: Pipeline, e: Event, fromcache: nat)
    requires LoadsCached(p, fromcache) && Enabled(p, e)
    ensures LoadsCached(After(p, e), fromcache)
  {
    hide AfterShutdown;
    forall q, late ensures var r := AfterShutdown(q, late); r.source == q.source && r.cached == q.cached {
      ShutdownLeaves(q, late);
    }
  }

  lemma {:induction false} RunLoads(p: Pipeline, events: seq<Event>, q: Pipeline, fromcache: nat)
    requires LoadsCached(p, fromcache) && Reaches(p, events, q)
    ensures LoadsCached(q, fromcache)
    decreases |events|
  {
    hide LoadsCached;
    if events != [] {
      StepLoads(p, events[0], fromcache);
      RunLoads(After(p, events[0]), events[1..], q, fromcache);
    }
  }

  lemma {:induction false} ReachableLoads(willparse: seq<Job>, fromcache: nat, p: Pipeline)
    requires Reachable(willparse, fromcache, p)
    ensures LoadsCached(p, fromcache)
  {
    var threads: nat, events :| Reaches(Start(willparse, fromcache, threads), events, p);
    RunLoads(Start(willparse, fromcache, threads), events, p, fromcache);
  }

  // What a shutdown does not change.
  lemma {:induction false} ShutdownLeaves(p: Pipeline, late: seq<nat>)
    ensures var q := AfterShutdown(p, late);
      && q.source == p.source && q.error == p.error && q.interrupted == p.interrupted
      && q.processes == p.processes && q.cached == p.cached
  {
    if p.toparse > 0 && !p.haveshutdown {
      ShutdownIs(p, late);
    }
  }

  lemma {:induction false} ShutdownCounts(p: Pipeline, late: seq<nat>)
    ensures var q := AfterShutdown(p, late);
      q.parsed == p.parsed && q.toparse == p.toparse && (p.toparse > 0 ==> q.haveshutdown)
  {
    if p.toparse > 0 && !p.haveshutdown {
      ShutdownIs(p, late);
    }
  }

  lemma {:induction false} ProcessLeaves(p: Pipeline, e: Event)
    requires Enabled(p, e) && (e.Turn? || e.Leave? || e.Feed? || e.Exit? || e.Kill?)
    ensures After(p, e).source == p.source && After(p, e).error == p.error
  {}

  // `parse_next` returns False only with the results exhausted, or after an error.
  lemma {:induction false} ResumeEnds(p: Pipeline, gone: set<nat>, late: seq<nat>)
    requires p.source != InGet
    ensures var (q, progress) := AfterResume(p, gone, late);
      && (progress.Waiting? <==> q.source == InGet)
      && (progress.Returned? && !More(progress.why) ==> q.source == Exhausted)
  {
    hide AfterShutdown;
    forall q, l ensures AfterShutdown(q, l).source == q.source {
      ShutdownLeaves(q, l);
    }
  }

  lemma {:induction false} GetEnds(p: Pipeline, late: seq<nat>)
    requires p.source == InGet
    ensures var (q, why) := AfterGet(p, late); q.source != InGet && (!More(why) ==> q.error > 0)
  {
    hide AfterShutdown;
    forall q, l ensures AfterShutdown(q, l).source == q.source && AfterShutdown(q, l).error == q.error {
      ShutdownLeaves(q, l);
    }
  }

  // When the results are exhausted without an error, and no interrupt hit the consumer, every
  // recipe was consumed exactly once, every recipe of the cache was loaded, and nothing is left over anywhere.
  lemma {:induction false} CleanCompletion(willparse: seq<Job>, fromcache: nat, p: Pipeline)
    requires Reachable(willparse, fromcache, p)
    requires p.source == Exhausted && p.error == 0 && !p.interrupted
    ensures multiset(JobsOf(p.consumed)) == multiset(willparse)
    ensures |p.consumed| == p.parsed == |willparse| && p.cached == fromcache
    ensures AllHeld(p.workers) == multiset{} && p.queue == [] && p.drained == [] && p.lost == []
  {
    ReachableKeeps(willparse, fromcache, p);
    ReachableLoads(willparse, fromcache, p);
    Sizes(p);
  }

  lemma {:induction false} Sizes(p: Pipeline)
    ensures |Everything(p)| == |AllHeld(p.workers)| + |p.queue| + |p.consumed| + |p.drained| + |p.lost|
  {
    JobsOfConcat(p.queue, []);
    JobsOfConcat(p.consumed, []);
    JobsOfConcat(p.drained, []);
  }

  // "Not all recipes parsed" is reported only when nothing is under way any more: each recipe was consumed,
  // as parsed or as failed, or drained by a shutdown, or lost with a process. Some were lost if and only
  // if the others do not add up to all recipes.
  lemma {:induction false} NotAllParsedAddsUp(willparse: seq<Job>, fromcache: nat, p: Pipeline, gone: set<nat>,
                                              late: seq<nat>)
    requires Reachable(willparse, fromcache, p) && p.source != InGet
    requires AfterResume(p, gone, late).1 == Returned(NotAllParsed)
    ensures AllHeld(p.workers) == multiset{} && p.queue == []
    ensures multiset(JobsOf(p.consumed)) + multiset(JobsOf(p.drained)) + multiset(p.lost) == multiset(willparse)
    ensures p.lost != [] <==> |p.consumed| + |p.drained| < |willparse|
    ensures |willparse| - p.parsed == CountFailed(p.consumed) + |p.drained| + |p.lost| > 0
  {
    hide Inv, AfterResume, Everything;
    ReachableKeeps(willparse, fromcache, p);
    NothingUnderWay(p, gone, late);
    EverythingSplit(p);
    ParsedOrFailed(p.consumed);
    InvIsEnough(p);
  }

  lemma {:induction false} NothingUnderWay(p: Pipeline, gone: set<nat>, late: seq<nat>)
    requires Inv(p) && p.source != InGet && AfterResume(p, gone, late).1 == Returned(NotAllParsed)
    ensures AllHeld(p.workers) == multiset{} && p.queue == [] && p.parsed < p.toparse
    ensures !p.haveshutdown ==> p.drained == [] && |p.consumed| == p.parsed
  {
    hide AfterShutdown, CountParsed, AllHeld;
    assert p.source == AtTest(true) && p.processes == {};
    NothingHeld(p.workers);
  }

  function CountFailed(results: seq<Result>): nat {
    if results == [] then 0 else CountFailed(results[..|results| - 1]) + if results[|results| - 1].Failed? then 1 else 0
  }

  lemma {:induction false} ParsedOrFailed(results: seq<Result>)
    ensures CountParsed(results) + CountFailed(results) == |results|
  {
    if results != [] {
      ParsedOrFailed(results[..|results| - 1]);
    }
  }

  lemma {:induction false} EverythingSplit(p: Pipeline)
    requires AllHeld(p.workers) == multiset{} && p.queue == []
    ensures Everything(p) == multiset(JobsOf(p.consumed)) + multiset(JobsOf(p.drained)) + multiset(p.lost)
    ensures |Everything(p)| == |p.consumed| + |p.drained| + |p.lost|
  {
    Sizes(p);
  }

  // As long as the parser was not shut down, all that is missing was lost with a process before it
  // reached the queue.
  lemma {:induction false} NotAllParsedMeansLost(willparse: seq<Job>, fromcache: nat, p: Pipeline, gone: set<nat>,
                                                 late: seq<nat>)
    requires Reachable(willparse, fromcache, p) && p.source != InGet && !p.haveshutdown
    requires AfterResume(p, gone, late).1 == Returned(NotAllParsed)
    ensures |p.lost| == |willparse| - p.parsed > 0
    ensures multiset(JobsOf(p.consumed)) + multiset(p.lost) == multiset(willparse)
  {
    hide Inv, AfterResume, Everything, AllHeld;
    ReachableKeeps(willparse, fromcache, p);
    NothingUnderWay(p, gone, late);
    EverythingSplit(p);
    assert multiset(JobsOf(p.drained)) == multiset{};
  }

  // Without that condition nothing needs to be lost. A recipe that failed to parse shuts the parser down;
  // the next command goes on with that parser, finds no process left, and gets the same report.
  lemma {:induction false} FailedIsNotAllParsed(job: Job) returns (p: Pipeline)
    ensures Reachable([job], 0, p) && p.source != InGet && AfterResume(p, {}, []).1 == Returned(NotAllParsed)
    ensures p.consumed == [Failed(job)] && p.drained == [] && p.lost == []
  {
    hide Start, Reachable, AfterShutdown, AfterResume, Every;
    var jobs := [job];
    var start := StartsWithOne(jobs);
    var fed := Put(jobs, 0, start, jobs, false);
    var gone := Ends(jobs, 0, fed);
    var waits := Reaps(jobs, 0, gone);
    var shut := GetsFailed(jobs, 0, waits);
    p := NothingComes(jobs, 0, shut);
  }

  // So it does when a command ends while a result is still in the queue: the shutdown drains it.
  lemma {:induction false} DrainedIsNotAllParsed(a: Job, b: Job) returns (p: Pipeline)
    ensures Reachable([a, b], 0, p) && p.source != InGet && AfterResume(p, {}, []).1 == Returned(NotAllParsed)
    ensures p.consumed == [Parsed(b)] && p.drained == [Parsed(a)] && p.lost == []
  {
    hide Start, Reachable, AfterShutdown, AfterResume, Every;
    var jobs := [a, b];
    var start := StartsWithOne(jobs);
    var once := Put(jobs, 0, start, jobs, true);
    assert jobs[..1] == [a];
    var twice := Put(jobs, 0, once, [a], true);
    assert [a][..0] == [];
    var gone := Ends(jobs, 0, twice);
    var waits := Reaps(jobs, 0, gone);
    var got := GetsParsed(jobs, 0, waits);
    ReachableStep(jobs, 0, got, Shutdown([]));
    NothingToEnd(got);
    p := NothingComes(jobs, 0, AfterShutdown(got, []));
  }

  const ENDED := Worker([], [], true, [], Gone)

  lemma {:induction false} StartsWithOne(jobs: seq<Job>) returns (p: Pipeline)
    requires jobs != []
    ensures Reachable(jobs, 0, p)
    ensures p ==
      Pipeline([NewWorker(jobs)], [], false, {0}, false, Cached(0), |jobs|, 0, 0, 0, false, false, [], [], [])
  {
    hide Every;
    p := Start(jobs, 0, 1);
    StartIsReachable(jobs, 0, 1);
    EveryOne(jobs, 0);
    assert jobs[0..] == jobs;
    assert UpTo(1) == {0};
  }

  lemma {:induction false} EveryOne<T>(lst: seq<T>, i: nat)
    requires i <= |lst|
    ensures Every(lst, i, 1) == lst[i..]
    decreases |lst| - i
  {
    if i < |lst| {
      EveryOne(lst, i + 1);
    }
  }

  // The one process parses its last job and gets the result into the queue.
  lemma {:induction false} Put(willparse: seq<Job>, fromcache: nat, p: Pipeline, jobs: seq<Job>, ok: bool)
      returns (q: Pipeline)
    requires Reachable(willparse, fromcache, p) && p.workers == [NewWorker(jobs)] && jobs != []
    ensures Reachable(willparse, fromcache, q)
    ensures var n := |jobs| - 1;
      q == p.(workers := [NewWorker(jobs[..n])], queue := p.queue + [if ok then Parsed(jobs[n]) else Failed(jobs[n])])
  {
    hide Reachable;
    var n := |jobs| - 1;
    var r := if ok then Parsed(jobs[n]) else Failed(jobs[n]);
    ReachableStep(willparse, fromcache, p, Turn(0, ok, false));
    var w := NewWorker(jobs[..n]);
    var turned := p.(workers := [w.(buffer := [r])]);
    assert [] + [r] == [r] && [r][..0] == [] && [r][0] == r;
    assert PutResult(PopJob(p.workers[0], ok), false) == w.(buffer := [r]);
    assert AfterTurn(p, 0, ok, false) == turned;
    ReachableStep(willparse, fromcache, turned, Feed(0));
    assert [r][1..] == [] && turned.workers[0 := w] == [w];
    q := After(turned, Feed(0));
  }

  // The one process has nothing left to do, and ends.
  lemma {:induction false} Ends(willparse: seq<Job>, fromcache: nat, p: Pipeline) returns (q: Pipeline)
    requires Reachable(willparse, fromcache, p) && p.workers == [NewWorker([])] && p.lost == []
    ensures Reachable(willparse, fromcache, q) && q == p.(workers := [ENDED])
  {
    hide Reachable;
    assert [] + [] + JobsOf([]) == [];
    ReachableStep(willparse, fromcache, p, Leave(0));
    var left := p.(workers := [ENDED.(status := Leaving)]);
    assert After(p, Leave(0)) == left;
    ReachableStep(willparse, fromcache, left, Exit(0));
    q := After(left, Exit(0));
  }

  // The process is found to have ended, and the consumer waits.
  lemma {:induction false} Reaps(willparse: seq<Job>, fromcache: nat, p: Pipeline) returns (q: Pipeline)
    requires Reachable(willparse, fromcache, p) && p.source == Cached(0) && p.workers == [ENDED] && p.processes == {0}
    requires !p.closed && p.parsed < p.toparse
    ensures Reachable(willparse, fromcache, q) && q == p.(source := InGet, processes := {})
  {
    hide Reachable, AfterShutdown;
    ReachableStep(willparse, fromcache, p, Resume({0}, []));
    q := After(p, Resume({0}, []));
    assert {0} - {0} == {};
  }

  // A shutdown, after the only process has ended.
  lemma {:induction false} NothingToEnd(p: Pipeline)
    requires p.workers == [ENDED] && p.toparse > 0 && !p.haveshutdown
    ensures AfterShutdown(p, []) ==
      p.(haveshutdown := true, drained := p.drained + p.queue, queue := [], quit := true, closed := true)
  {
    var q := p.(haveshutdown := true, drained := p.drained + p.queue, queue := [], quit := true, closed := true);
    assert AfterEnd(q, 0, 0) == q && AfterEnds(q, 1, []) == q;
  }

  lemma {:induction false} GetsParsed(willparse: seq<Job>, fromcache: nat, p: Pipeline) returns (q: Pipeline)
    requires Reachable(willparse, fromcache, p) && p.source == InGet && p.queue != [] && p.queue[0].Parsed?
    ensures Reachable(willparse, fromcache, q)
    ensures q == p.(source := AtTest(false), queue := p.queue[1..], consumed := p.consumed + [p.queue[0]],
                    parsed := p.parsed + 1)
  {
    hide Reachable, AfterShutdown;
    ReachableStep(willparse, fromcache, p, Get([]));
    q := After(p, Get([]));
  }

  lemma {:induction false} GetsFailed(willparse: seq<Job>, fromcache: nat, p: Pipeline) returns (q: Pipeline)
    requires Reachable(willparse, fromcache, p) && p.source == InGet && p.toparse > 0 && !p.haveshutdown
    requires p.workers == [ENDED] && |p.queue| == 1 && p.queue[0].Failed?
    ensures Reachable(willparse, fromcache, q)
    ensures q == p.(source := AtTest(false), queue := [], consumed := p.consumed + p.queue, error := p.error + 1,
                    haveshutdown := true, quit := true, closed := true)
  {
    hide Reachable, AfterShutdown;
    ReachableStep(willparse, fromcache, p, Get([]));
    q := After(p, Get([]));
    assert p.queue == [p.queue[0]] && p.queue[1..] == [];
    NothingToEnd(p.(source := AtTest(false), queue := [], consumed := p.consumed + p.queue, error := p.error + 1));
    assert p.drained + [] == p.drained;
  }

  // With no process left and nothing in the queue, the next `get` times out and the one after it is the last.
  lemma {:induction false} NothingComes(willparse: seq<Job>, fromcache: nat, p: Pipeline) returns (q: Pipeline)
    requires Reachable(willparse, fromcache, p) && p.source == AtTest(false) && p.processes == {} && p.queue == []
    requires p.parsed < p.toparse
    ensures Reachable(willparse, fromcache, q) && q == p.(source := AtTest(true))
    ensures AfterResume(q, {}, []).1 == Returned(NotAllParsed)
  {
    hide Reachable, AfterShutdown;
    ReachableStep(willparse, fromcache, p, Resume({}, []));
    var waits := p.(source := InGet);
    assert p.processes - {} == p.processes;
    assert AfterResume(p, {}, []).0 == waits;
    ReachableStep(willparse, fromcache, waits, Get([]));
    q := After(waits, Get([]));
  }

  // ----- the program -----

  method Slice<T>(lst: seq<T>, first: nat, step: nat) returns (r: seq<T>)
    requires step > 0
    ensures r == Every(lst, first, step)
  {
    r := [];
    var i := first;
    while i < |lst|
      invariant r + Every(lst, i, step) == Every(lst, first, step)
      decreases |lst| - i
    {
      assert r + ([lst[i]] + Every(lst, i + step, step)) == (r + [lst[i]]) + Every(lst, i + step, step);
      r := r + [lst[i]];
      i := i + step;
    }
  }

  class CookerParser {
    var workers: seq<Worker>
    var queue: seq<Result>
    var quit: bool
    var processes: set<nat>
    var closed: bool
    var results: Source
    const toparse: nat
    var parsed: nat
    var cached: nat
    var error: nat
    var haveshutdown: bool
    ghost var interrupted: bool
    ghost var consumed: seq<Result>
    ghost var drained: seq<Result>
    ghost var lost: seq<Job>

    ghost function Now(): Pipeline
      reads this
    {
      Pipeline(workers, queue, quit, processes, closed, results, toparse, parsed, cached, error, haveshutdown,
               interrupted, consumed, drained, lost)
    }

    // `__init__` and `start`
    constructor (willparse: seq<Job>, fromcache: nat, threads: nat)
      ensures Now() == Start(willparse, fromcache, threads)
    {
      toparse := |willparse|;
      parsed, cached, error := 0, 0, 0;
      haveshutdown, closed, quit := false, false, false;
      queue, results := [], Cached(fromcache);
      interrupted, consumed, drained := false, [], [];
      new;
      var n := if threads < |willparse| then threads else |willparse|;
      workers, processes := MakeWorkers(willparse, n);
      lost := if n == 0 then willparse else [];
    }

    static method MakeWorkers(willparse: seq<Job>, n: nat) returns (workers: seq<Worker>, processes: set<nat>)
      ensures workers == Deal(willparse, n) && processes == UpTo(n)
    {
      hide Every;
      workers, processes := [], {};
      for i := 0 to n
        invariant workers == Deal(willparse, n)[..i] && processes == UpTo(i)
      {
        var jobs := Slice(willparse, i, n);
        workers := workers + [NewWorker(jobs)];
        processes := processes + {i};
      }
    }

    method Turn(i: nat, ok: bool, full: bool)
      requires IsLooping(Now(), i)
      modifies this
      ensures Now() == AfterTurn(old(Now()), i, ok, full)
    {
      var w := workers[i];
      if w.jobs == [] {
        w := w.(havejobs := false);
      } else {
        var job := w.jobs[|w.jobs| - 1];
        w := w.(jobs := w.jobs[..|w.jobs| - 1], pending := w.pending + [if ok then Parsed(job) else Failed(job)]);
      }
      if w.pending != [] {
        var result := w.pending[|w.pending| - 1];
        assert w.pending[..|w.pending| - 1] + [result] == w.pending;
        w := w.(pending := w.pending[..|w.pending| - 1]);
        if full {
          w := w.(pending := w.pending + [result]);
        } else {
          w := w.(buffer := w.buffer + [result]);
        }
      }
      workers := workers[i := w];
    }

    method Leave(i: nat)
      requires IsLooping(Now(), i)
      modifies this
      ensures Now() == AfterLeave(old(Now()), i)
    {
      lost := lost + workers[i].jobs + JobsOf(workers[i].pending);
      workers := workers[i := workers[i].(jobs := [], pending := [], status := Leaving)];
    }

    method Feed(i: nat)
      requires IsUp(Now(), i)
      modifies this
      ensures Now() == AfterFeed(old(Now()), i)
    {
      var buffer := workers[i].buffer;
      if buffer != [] {
        queue := queue + [buffer[0]];
        workers := workers[i := workers[i].(buffer := buffer[1..])];
      }
    }

    method Exit(i: nat)
      requires Enabled(Now(), Event.Exit(i))
      modifies this
      ensures Now() == AfterExit(old(Now()), i)
    {
      workers := workers[i := workers[i].(status := Gone)];
    }

    method Kill(i: nat)
      requires IsUp(Now(), i)
      modifies this
      ensures Now() == AfterKill(old(Now()), i)
    {
      lost := lost + workers[i].jobs + JobsOf(workers[i].pending) + JobsOf(workers[i].buffer);
      workers := workers[i := Worker([], [], workers[i].havejobs, [], Gone)];
    }

    // Quit, interrupt, terminate and join: the process ends, sooner or later.
    method End(i: nat, late: nat)
      modifies this
      ensures Now() == AfterEnd(old(Now()), i, late)
    {
      if i < |workers| && workers[i].status != Gone {
        var k := late;
        while k > 0
          invariant IsUp(Now(), i) && AfterEnd(Now(), i, k) == AfterEnd(old(Now()), i, late)
        {
          Feed(i);
          k := k - 1;
        }
        Kill(i);
      }
    }

    // `shutdown`
    method Shutdown(late: seq<nat>)
      modifies this
      ensures Now() == AfterShutdown(old(Now()), late)
    {
      if toparse == 0 || haveshutdown {
        return;
      }
      haveshutdown := true;
      ghost var ready := Now().(drained := drained + queue, queue := [], quit := true, closed := true);
      while queue != []
        invariant Now().(drained := drained + queue, queue := [], quit := true, closed := true) == ready
        decreases |queue|
      {
        drained, queue := drained + [queue[0]], queue[1..];
      }
      quit := true;
      assert Now().(closed := true) == ready;
      EndProcesses(late);
    }

    method EndProcesses(late: seq<nat>)
      modifies this
      ensures Now() == AfterEnds(old(Now()).(closed := true), 0, late)
    {
      closed := true;
      for i := 0 to |workers|
        invariant AfterEnds(Now(), i, late) == AfterEnds(old(Now()).(closed := true), 0, late)
        invariant |workers| == old(|workers|)
      {
        EndKeepsCount(Now(), i, if i < |late| then late[i] else 0);
        End(i, if i < |late| then late[i] else 0);
      }
    }

    // StopIteration, or the ParseError at the end of the generator
    method Finish(late: seq<nat>) returns (why: Why)
      modifies this
      ensures (Now(), Returned(why)) == AtEnd(old(Now()), late)
    {
      results := Exhausted;
      if parsed >= toparse {
        Shutdown(late);
        return Complete;
      }
      error := error + 1;
      Shutdown(late);
      return NotAllParsed;
    }

    // `parse_next` as far as `next(self.results)` gets without waiting. `gone` are the processes
    // that turn out not to be alive.
    method ParseNext(gone: set<nat>, late: seq<nat>) returns (r: Progress)
      requires results != InGet
      modifies this
      ensures (Now(), r) == AfterResume(old(Now()), gone, late)
    {
      match results
      case Cached(left) =>
        if left > 0 {
          results, cached := Cached(left - 1), cached + 1;
          return Returned(Item);
        }
        if toparse == 0 {
          var why := Finish(late);
          return Returned(why);
        }
        r := Generate(false, gone, late);
      case AtTest(empty) =>
        r := Generate(empty, gone, late);
      case Exhausted =>
        Shutdown(late);
        return Returned(Complete);
    }

    // `parse_generator` from its loop test on
    method Generate(empty: bool, gone: set<nat>, late: seq<nat>) returns (r: Progress)
      modifies this
      ensures (Now(), r) == AfterTest(old(Now()), empty, gone, late)
    {
      if processes == {} && empty {
        var why := Finish(late);
        return Returned(why);
      }
      if processes != {} && closed {
        // is_alive() on a closed process
        results, error := Exhausted, error + 1;
        Shutdown(late);
        return Returned(ProcessClosed);
      }
      var todo := processes;
      while todo != {}
        invariant todo <= old(processes) && processes == old(processes) - (gone - todo)
        invariant Now() == old(Now()).(processes := processes)
      {
        var i :| i in todo;
        todo := todo - {i};
        if i in gone {
          processes := processes - {i};
        }
      }
      assert processes == old(processes) - gone;
      if parsed >= toparse {
        var why := Finish(late);
        return Returned(why);
      }
      results := InGet;
      return Waiting;
    }

    // The rest of `parse_next`.
    method ParseGot(late: seq<nat>) returns (why: Why)
      requires results == InGet
      modifies this
      ensures (Now(), why) == AfterGet(old(Now()), late)
    {
      if queue == [] {
        results := AtTest(true);
        return TimedOut;
      }
      var result := queue[0];
      queue, results := queue[1..], AtTest(false);
      consumed := consumed + [result];
      if result.Failed? {
        error := error + 1;
        Shutdown(late);
        return RecipeFailed;
      }
      parsed := parsed + 1;
      return Item;
    }

    method Interrupt()
      requires results == InGet
      modifies this
      ensures Now() == AfterInterrupt(old(Now()))
    {
      results, interrupted := Exhausted, true;
    }
  }
}
