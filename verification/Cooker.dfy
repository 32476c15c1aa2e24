// The states of the cooker while commands, parse steps and shutdown requests interleave
// (cooker.py:1577-1652, 1714-1752; command.py:109-152).
module CookerStates {
  import opened Prelude
  import ParsePipeline

  type Job = ParsePipeline.Job
  type Pipeline = ParsePipeline.Pipeline

  datatype State = Initial | Parsing | Running | Shutdown | Forceshutdown | Stopped | Error

  // What a parse of the configuration and the caches yields.
  datatype Setup = Setup(willparse: seq<Job>, fromcache: nat, threads: nat)

  // `registered`: runAsyncCommand is among the idle functions. `busy`: it waits inside `parse_next`.
  // `executed` is the history of commands that were executed: whether they need the recipe cache,
  // and the state in which they were.
  datatype Cooker = Cooker(state: State, parsecacheValid: bool, parser: Option<Pipeline>, willparse: seq<Job>,
                           fromcache: nat, command: Option<bool>, registered: bool, busy: bool,
                           executed: seq<(bool, State)>)

  const START := Cooker(Initial, false, None, [], 0, None, false, false, [])

  // ----- the steps -----

  function StopParser(c: Cooker, late: seq<nat>): Cooker {
    match c.parser
    case None => c
    case Some(p) => c.(parser := Some(ParsePipeline.AfterShutdown(p, late)))
  }

  // `finishAsyncCommand`, with `finishcommand` in it
  function Finish(c: Cooker, late: seq<nat>): Cooker {
    StopParser(c, late).(state := Initial, command := None)
  }

  // An idle function that returns `idleFinish`
  function IdleFinish(c: Cooker, late: seq<nat>): Cooker {
    Finish(c.(registered := false, busy := false), late)
  }

  function Register(c: Cooker, needcache: bool): Cooker {
    if c.command.Some? then c else c.(command := Some(needcache), registered := true)
  }

  // `shutdown`
  function RequestShutdown(c: Cooker, force: bool, late: seq<nat>): Cooker {
    StopParser(c.(state := if force then Forceshutdown else Shutdown), late)
  }

  // After `parse_next` has returned inside `updateCache`.
  function Updated(c: Cooker, why: ParsePipeline.Why, late: seq<nat>): Cooker {
    if ParsePipeline.More(why) then c.(busy := false)
    else if c.parser.Some? && c.parser.value.error > 0 then IdleFinish(c, late)
    else c.(state := Running, busy := false)
  }

  // `updateCache` from where the state is set to parsing
  function ParseNext(c: Cooker, gone: set<nat>, late: seq<nat>): Cooker
    requires c.parser.Some? && c.parser.value.source != ParsePipeline.InGet
  {
    var (p, progress) := ParsePipeline.AfterResume(c.parser.value, gone, late);
    var parsing := c.(state := Parsing, parser := Some(p));
    match progress
    case Waiting => parsing.(busy := true)
    case Returned(why) => Updated(parsing, why, late)
  }

  // `updateCache`; without a setup, reading the configuration fails
  function UpdateCache(c: Cooker, reload: bool, setup: Option<Setup>, gone: set<nat>, late: seq<nat>): Cooker
    requires Sound(c) && !c.busy
  {
    var now := if c.state != Parsing && reload then c.(state := Initial, parsecacheValid := false) else c;
    if now.state == Parsing || now.parsecacheValid then ParseNext(now, gone, late)
    else match setup
      case None => IdleFinish(now, late)
      case Some(s) =>
        var p := ParsePipeline.Start(s.willparse, s.fromcache, s.threads);
        ParseNext(
          now.(parser := Some(p), willparse := s.willparse, fromcache := s.fromcache, parsecacheValid := true),
          {}, late)
  }

  predicate Sound(c: Cooker) {
    && (c.busy <==> c.parser.Some? && c.parser.value.source == ParsePipeline.InGet)
    && (c.parsecacheValid || c.state == Parsing ==> c.parser.Some?)
  }

  // `runAsyncCommand`, up to where it may wait
  function RunAsync(c: Cooker, reload: bool, setup: Option<Setup>, gone: set<nat>, late: seq<nat>): Cooker
    requires Sound(c) && !c.busy
  {
    if c.state in {Error, Shutdown, Forceshutdown} then IdleFinish(StopParser(c, late), late)
    else match c.command
      case None => IdleFinish(c, late)
      case Some(needcache) =>
        if needcache && c.state != Running then UpdateCache(c, reload, setup, gone, late)
        else c.(registered := false, executed := c.executed + [(needcache, c.state)])
  }

  function GotResult(c: Cooker, late: seq<nat>): Cooker
    requires Sound(c) && c.busy
  {
    var (p, why) := ParsePipeline.AfterGet(c.parser.value, late);
    Updated(c.(parser := Some(p)), why, late)
  }

  // A KeyboardInterrupt while it waits
  function Interrupted(c: Cooker, late: seq<nat>): Cooker
    requires Sound(c) && c.busy
  {
    IdleFinish(c.(parser := Some(ParsePipeline.AfterInterrupt(c.parser.value))), late)
  }

  datatype Event =
    | Command(needcache: bool)
    | Idle(reload: bool, setup: Option<Setup>, gone: set<nat>, late: seq<nat>)
    | Got(late: seq<nat>)
    | KeyboardInterrupt(late: seq<nat>)
    | CommandDone(late: seq<nat>)
    | ShutdownRequest(force: bool, late: seq<nat>)
    | ClientComplete(late: seq<nat>)
    | Invalidate
    | ReloadConfig
    | Process(step: ParsePipeline.Event)

  predicate IsProcessStep(e: ParsePipeline.Event) {
    e.Turn? || e.Leave? || e.Feed? || e.Exit? || e.Kill?
  }

  predicate Enabled(c: Cooker, e: Event) {
    match e
    case Command(_) => true
    case Idle(_, _, gone, _) => c.registered && !c.busy
      && (c.parser.Some? ==> ParsePipeline.MayReap(c.parser.value, gone))
    case Got(_) => c.busy
    case KeyboardInterrupt(_) => c.busy
    case CommandDone(_) => !c.registered && !c.busy && c.command.Some?
    case ShutdownRequest(_, _) => true
    case ClientComplete(_) => true
    case Invalidate => true
    case ReloadConfig => c.state != Running
    case Process(step) => c.parser.Some? && IsProcessStep(step) && ParsePipeline.Enabled(c.parser.value, step)
  }

  function After(c: Cooker, e: Event): Cooker
    requires Sound(c) && Enabled(c, e)
  {
    match e
    case Command(needcache) => Register(c, needcache)
    case Idle(reload, setup, gone, late) => RunAsync(c, reload, setup, gone, late)
    case Got(late) => GotResult(c, late)
    case KeyboardInterrupt(late) => Interrupted(c, late)
    case CommandDone(late) => Finish(c, late)
    case ShutdownRequest(force, late) => RequestShutdown(c, force, late)
    case ClientComplete(late) => StopParser(c, late).(state := Initial, parsecacheValid := false)
    case Invalidate => c.(parsecacheValid := false)
    case ReloadConfig => c.(state := Initial, parsecacheValid := false)
    case Process(step) => c.(parser := Some(ParsePipeline.After(c.parser.value, step)))
  }

  // ----- what holds in every state -----

  predicate Finished(p: Pipeline) {
    p.source == ParsePipeline.Exhausted && p.error == 0
  }

  predicate OnlyWhenRunning(executed: seq<(bool, State)>) {
    forall x :: x in executed && x.0 ==> x.1 == Running
  }

  ghost predicate Inv(c: Cooker) {
    && Sound(c)
    && (c.parser.Some? ==> ParsePipeline.Reachable(c.willparse, c.fromcache, c.parser.value))
    && (c.state == Running ==> c.parser.Some? && Finished(c.parser.value))
    && OnlyWhenRunning(c.executed)
  }

  lemma {:induction false} StopKeeps(c: Cooker, late: seq<nat>)
    requires Inv(c)
    ensures Inv(StopParser(c, late))
  {
    if c.parser.Some? {
      ParsePipeline.ReachableStep(c.willparse, c.fromcache, c.parser.value, ParsePipeline.Event.Shutdown(late));
      ParsePipeline.ShutdownLeaves(c.parser.value, late);
    }
  }

  lemma {:induction false} FinishKeeps(c: Cooker, late: seq<nat>)
    requires Inv(c)
    ensures Inv(Finish(c, late))
  {
    StopKeeps(c, late);
  }

  // The same for a state in which the parser has just left its `get`.
  lemma {:induction false} IdleFinishKeeps(c: Cooker, late: seq<nat>)
    requires Inv(c.(busy := false)) || Inv(c.(busy := false, state := Initial))
    ensures Inv(IdleFinish(c, late))
  {
    var d := c.(registered := false, busy := false, state := Initial);
    assert Inv(d);
    FinishKeeps(d, late);
    assert IdleFinish(c, late) == Finish(d, late);
  }

  // After `parse_next` inside `updateCache`: `running` is entered only with the results exhausted.
  lemma {:induction false} UpdatedKeeps(c: Cooker, why: ParsePipeline.Why, late: seq<nat>)
    requires Inv(c.(busy := false)) && c.parser.Some?
    requires !ParsePipeline.More(why) ==> c.parser.value.error > 0 || c.parser.value.source == ParsePipeline.Exhausted
    ensures Inv(Updated(c, why, late))
  {
    if !ParsePipeline.More(why) && c.parser.value.error > 0 {
      IdleFinishKeeps(c, late);
    }
  }

  lemma {:induction false} ParseNextKeeps(c: Cooker, gone: set<nat>, late: seq<nat>)
    requires Inv(c) && !c.busy && c.parser.Some? && ParsePipeline.MayReap(c.parser.value, gone)
    ensures Inv(ParseNext(c, gone, late))
  {
    var p := c.parser.value;
    var (q, progress) := ParsePipeline.AfterResume(p, gone, late);
    ParsePipeline.ReachableStep(c.willparse, c.fromcache, p, ParsePipeline.Resume(gone, late));
    ParsePipeline.ResumeEnds(p, gone, late);
    var parsing := c.(state := Parsing, parser := Some(q));
    if progress.Returned? {
      UpdatedKeeps(parsing, progress.why, late);
    }
  }

  lemma {:induction false} UpdateCacheKeeps(c: Cooker, reload: bool, setup: Option<Setup>, gone: set<nat>,
                                            late: seq<nat>)
    requires Inv(c) && !c.busy && (c.parser.Some? ==> ParsePipeline.MayReap(c.parser.value, gone))
    ensures Inv(UpdateCache(c, reload, setup, gone, late))
  {
    var now := if c.state != Parsing && reload then c.(state := Initial, parsecacheValid := false) else c;
    if now.state == Parsing || now.parsecacheValid {
      ParseNextKeeps(now, gone, late);
    } else if setup.None? {
      IdleFinishKeeps(now, late);
    } else {
      var s := setup.value;
      var p := ParsePipeline.Start(s.willparse, s.fromcache, s.threads);
      ParsePipeline.StartIsReachable(s.willparse, s.fromcache, s.threads);
      var parsing := now.(parser := Some(p), willparse := s.willparse, fromcache := s.fromcache,
                          parsecacheValid := true);
      var calm := parsing.(state := Initial);
      assert Inv(calm);
      ParseNextKeeps(calm, {}, late);
      assert ParseNext(parsing, {}, late) == ParseNext(calm, {}, late);
    }
  }

  // Every step of every interleaving keeps the invariant.
  lemma {:induction false} StepKeeps(c: Cooker, e: Event)
    requires Inv(c) && Enabled(c, e)
    ensures Inv(After(c, e))
  {
    match e
    case Command(_) =>
    case Idle(reload, setup, gone, late) => RunAsyncKeeps(c, reload, setup, gone, late);
    case Got(late) => GotKeeps(c, late);
    case KeyboardInterrupt(late) =>
      ParsePipeline.ReachableStep(c.willparse, c.fromcache, c.parser.value, ParsePipeline.Interrupt);
      IdleFinishKeeps(c.(parser := Some(ParsePipeline.AfterInterrupt(c.parser.value))), late);
    case CommandDone(late) => FinishKeeps(c, late);
    case ShutdownRequest(force, late) => StopKeeps(c.(state := if force then Forceshutdown else Shutdown), late);
    case ClientComplete(late) => StopKeeps(c, late);
    case Invalidate =>
    case ReloadConfig =>
    case Process(step) =>
      ParsePipeline.ReachableStep(c.willparse, c.fromcache, c.parser.value, step);
      ParsePipeline.ProcessLeaves(c.parser.value, step);
  }

  lemma {:induction false} RunAsyncKeeps(c: Cooker, reload: bool, setup: Option<Setup>, gone: set<nat>, late: seq<nat>)
    requires Inv(c) && !c.busy && (c.parser.Some? ==> ParsePipeline.MayReap(c.parser.value, gone))
    ensures Inv(RunAsync(c, reload, setup, gone, late))
  {
    if c.state in {Error, Shutdown, Forceshutdown} {
      StopKeeps(c, late);
      IdleFinishKeeps(StopParser(c, late), late);
    } else if c.command.None? {
      IdleFinishKeeps(c, late);
    } else if c.command.value && c.state != Running {
      UpdateCacheKeeps(c, reload, setup, gone, late);
    }
  }

  lemma {:induction false} GotKeeps(c: Cooker, late: seq<nat>)
    requires Inv(c) && c.busy
    ensures Inv(GotResult(c, late))
  {
    var p := c.parser.value;
    ParsePipeline.ReachableStep(c.willparse, c.fromcache, p, ParsePipeline.Get(late));
    ParsePipeline.GetEnds(p, late);
    var (q, why) := ParsePipeline.AfterGet(p, late);
    assert !Finished(p);
    UpdatedKeeps(c.(parser := Some(q)), why, late);
  }

  // ----- the theorems -----

  ghost predicate Reaches(c: Cooker, events: seq<Event>, d: Cooker)
    requires Sound(c)
    decreases |events|
  {
    if events == [] then c == d
    else Enabled(c, events[0]) && Sound(After(c, events[0])) && Reaches(After(c, events[0]), events[1..], d)
  }

  lemma {:induction false} RunKeeps(c: Cooker, events: seq<Event>, d: Cooker)
    requires Inv(c) && Reaches(c, events, d)
    ensures Inv(d)
    decreases |events|
  {
    if events != [] {
      StepKeeps(c, events[0]);
      RunKeeps(After(c, events[0]), events[1..], d);
    }
  }

  // Over every interleaving of commands, parse steps and shutdown requests, also after parses that
  // were cut short: in state `running` the results of the parser are exhausted without an error, and
  // every recipe was parsed, exactly once, if and only if no KeyboardInterrupt hit its `get`; every recipe
  // of the cache was loaded; and a
  // command that needs the recipe cache was executed in state `running` only.
  lemma {:induction false} RunningMeansParsed(events: seq<Event>, d: Cooker)
    requires Reaches(START, events, d)
    ensures d.state == Running ==> d.parser.Some? && Finished(d.parser.value)
    ensures d.state == Running ==>
      (d.parser.value.parsed >= d.parser.value.toparse <==> !d.parser.value.interrupted)
    ensures d.state == Running && !d.parser.value.interrupted ==>
      multiset(ParsePipeline.JobsOf(d.parser.value.consumed)) == multiset(d.willparse)
    ensures d.state == Running ==> d.parser.value.cached == d.fromcache
    ensures OnlyWhenRunning(d.executed)
  {
    RunKeeps(START, events, d);
    if d.state == Running {
      ParsePipeline.ReachableWaits(d.willparse, d.fromcache, d.parser.value);
      ParsePipeline.ReachableLoads(d.willparse, d.fromcache, d.parser.value);
      ParsePipeline.ReachableKeeps(d.willparse, d.fromcache, d.parser.value);
      if !d.parser.value.interrupted {
        ParsePipeline.CleanCompletion(d.willparse, d.fromcache, d.parser.value);
      }
    }
  }

  // ----- a shutdown request -----

  // The command under way, if there is one, is not going to be executed.
  predicate Stopping(c: Cooker) {
    c.state != Running && (c.state in {Shutdown, Forceshutdown} || c.command.None?)
  }

  // Steps that are no new command, and that do not put the cooker back into its initial state by themselves.
  predicate GoesOn(e: Event) {
    !e.Command? && !e.ClientComplete? && !e.ReloadConfig?
  }

  lemma {:induction false} RequestStops(c: Cooker, force: bool, late: seq<nat>)
    requires Inv(c)
    ensures var d := After(c, ShutdownRequest(force, late));
      && d.state == (if force then Forceshutdown else Shutdown) && Stopping(d)
      && d.executed == c.executed && d.command == c.command
      && (d.parser.Some? && d.parser.value.toparse > 0 ==>
            d.parser.value.haveshutdown && ParsePipeline.AllGone(d.parser.value.workers))
  {
    StepKeeps(c, ShutdownRequest(force, late));
    var d := After(c, ShutdownRequest(force, late));
    if d.parser.Some? {
      ParsePipeline.ReachableKeeps(d.willparse, d.fromcache, d.parser.value);
      ParsePipeline.ShutdownCounts(c.parser.value, late);
    }
  }

  lemma {:induction false} StepStaysStopping(c: Cooker, e: Event)
    requires Inv(c) && Stopping(c) && Enabled(c, e) && GoesOn(e)
    ensures Stopping(After(c, e)) && After(c, e).executed == c.executed
  {
    if e.Got? {
      ParsePipeline.GetEnds(c.parser.value, e.late);
    }
  }

  lemma {:induction false} RunStaysStopping(c: Cooker, events: seq<Event>, d: Cooker)
    requires Inv(c) && Stopping(c) && Reaches(c, events, d) && forall e :: e in events ==> GoesOn(e)
    ensures Stopping(d) && d.executed == c.executed
    decreases |events|
  {
    hide Stopping, After, Enabled;
    if events != [] {
      StepKeeps(c, events[0]);
      StepStaysStopping(c, events[0]);
      RunStaysStopping(After(c, events[0]), events[1..], d);
    }
  }

  // Wherever a shutdown request comes, the processes have ended after it, and whatever else happens, up
  // to the next command, no command is executed and the state is not `running`.
  lemma {:induction false} RequestKeepsFromRunning(before: seq<Event>, c: Cooker, force: bool, late: seq<nat>,
                                                   events: seq<Event>, d: Cooker)
    requires Reaches(START, before, c) && Sound(c) && Sound(After(c, ShutdownRequest(force, late)))
    requires Reaches(After(c, ShutdownRequest(force, late)), events, d) && forall e :: e in events ==> GoesOn(e)
    ensures d.executed == c.executed && d.state != Running
  {
    hide After, Reaches;
    RunKeeps(START, before, c);
    RequestStops(c, force, late);
    StepKeeps(c, ShutdownRequest(force, late));
    RunStaysStopping(After(c, ShutdownRequest(force, late)), events, d);
  }

  // ----- a command with everything in the cache -----

  const AGAIN := Idle(false, None, {}, [])

  function Repeat(e: Event, n: nat): seq<Event> {
    if n == 0 then [] else [e] + Repeat(e, n - 1)
  }

  // Each turn of the idle loop takes one recipe from the cache; one more turn ends the parse.
  lemma {:induction false} TakesCached(c: Cooker)
    requires c.state == Parsing && c.command == Some(true) && c.registered && !c.busy && c.parser.Some?
    requires c.parser.value.source.Cached? && c.parser.value.toparse == 0 && c.parser.value.error == 0
    ensures var (p, left) := (c.parser.value, c.parser.value.source.left);
      Reaches(c, Repeat(AGAIN, left + 1),
              c.(state := Running, parser := Some(p.(source := ParsePipeline.Exhausted, cached := p.cached + left))))
    decreases c.parser.value.source.left
  {
    var (p, left) := (c.parser.value, c.parser.value.source.left);
    var next := After(c, AGAIN);
    assert Repeat(AGAIN, left + 1)[0] == AGAIN && Repeat(AGAIN, left + 1)[1..] == Repeat(AGAIN, left);
    if left == 0 {
      assert ParsePipeline.AfterResume(p, {}, []) ==
        (p.(source := ParsePipeline.Exhausted), ParsePipeline.Returned(ParsePipeline.Complete));
    } else {
      TakesCached(next);
    }
  }

  // With any number of recipes in the cache and nothing to parse, a command that needs them is executed, with
  // all of them loaded.
  lemma {:induction false} CachedCommandRuns(fromcache: nat, threads: nat) returns (events: seq<Event>, d: Cooker)
    ensures Reaches(START, events, d) && d.state == Running && d.executed == [(true, Running)]
    ensures d.parser.Some? && d.parser.value.cached == fromcache && d.parser.value.toparse == 0
    ensures Sound(d) && d.parsecacheValid && d.command == Some(true) && !d.registered
    ensures d.parser.value.source == ParsePipeline.Exhausted && d.parser.value.error == 0
  {
    var first := Idle(false, Some(Setup([], fromcache, threads)), {}, []);
    var c1 := After(START, Command(true));
    var p := ParsePipeline.Start([], fromcache, threads);
    var c2 :=
      c1.(state := Parsing, parsecacheValid := true, parser := Some(p), willparse := [], fromcache := fromcache);
    TakesCached(c2);
    var rest := Repeat(AGAIN, fromcache);
    assert Repeat(AGAIN, fromcache + 1) == [AGAIN] + rest && ([AGAIN] + rest)[1..] == rest;
    assert After(c1, first) == After(c2, AGAIN);
    var ready := c2.(state := Running, parser := Some(p.(source := ParsePipeline.Exhausted, cached := fromcache)));
    assert Reaches(After(c1, first), rest, ready);
    d := After(ready, AGAIN);
    ReachesMore(After(c1, first), rest, ready, AGAIN);
    events := [Command(true)] + ([first] + (rest + [AGAIN]));
    assert ([first] + (rest + [AGAIN]))[1..] == rest + [AGAIN] && events[1..] == [first] + (rest + [AGAIN]);
    assert Reaches(c1, [first] + (rest + [AGAIN]), d);
  }

  // The next command goes on with the same parser, and is executed without a further parse.
  lemma {:induction false} CachedCommandRunsAgain(fromcache: nat, threads: nat) returns (events: seq<Event>, d: Cooker)
    ensures Reaches(START, events, d) && d.state == Running && d.executed == [(true, Running), (true, Running)]
    ensures d.parser.Some? && d.parser.value.cached == fromcache
  {
    var before, c := CachedCommandRuns(fromcache, threads);
    var done := After(c, CommandDone([]));
    assert done.command.None? && done.state == Initial && done.executed == c.executed;
    ReachesMore(START, before, c, CommandDone([]));
    var asked := After(done, Command(true));
    ReachesMore(START, before + [CommandDone([])], done, Command(true));
    var ready := After(asked, AGAIN);
    ReachesMore(START, before + [CommandDone([])] + [Command(true)], asked, AGAIN);
    d := After(ready, AGAIN);
    ReachesMore(START, before + [CommandDone([])] + [Command(true)] + [AGAIN], ready, AGAIN);
    events := before + [CommandDone([])] + [Command(true)] + [AGAIN] + [AGAIN];
    assert [(true, Running)] + [(true, Running)] == [(true, Running), (true, Running)];
  }

  lemma {:induction false} ReachesMore(c: Cooker, events: seq<Event>, d: Cooker, e: Event)
    requires Sound(c) && Reaches(c, events, d) && Sound(d) && Enabled(d, e) && Sound(After(d, e))
    ensures Reaches(c, events + [e], After(d, e))
    decreases |events|
  {
    hide After, Enabled, Sound;
    if events == [] {
      assert events + [e] == [e] && [e][1..] == [];
    } else {
      assert (events + [e])[1..] == events[1..] + [e];
      ReachesMore(After(c, events[0]), events[1..], d, e);
    }
  }

  // When there is no valid parse, or something has changed since, `updateCache` makes a new parser, and that
  // gets all that there is to parse and to load.
  lemma {:induction false} NewParserTakesAll(c: Cooker, reload: bool, s: Setup, gone: set<nat>, late: seq<nat>)
    requires Sound(c) && !c.busy && c.state != Parsing && (reload || !c.parsecacheValid)
    ensures var d := UpdateCache(c, reload, Some(s), gone, late);
      d.willparse == s.willparse && d.fromcache == s.fromcache && d.parser.Some?
  {}

  // The interrupt has to be excepted: one in the first `get` of a parse leaves a parser behind whose
  // results are exhausted, and the next command takes it for finished.
  lemma {:induction false} InterruptLosesRecipes(job: Job) returns (events: seq<Event>, d: Cooker)
    ensures Reaches(START, events, d)
    ensures d.state == Running && d.parser.Some? && d.parser.value.parsed < d.parser.value.toparse
  {
    var first := Idle(false, Some(Setup([job], 0, 1)), {}, []);
    var again := Idle(false, None, {}, []);
    var c1 := After(START, Command(true));
    var c2 := After(c1, first);
    var p := WaitsAtOnce(job);
    assert c2 == c1.(state := Parsing, parsecacheValid := true, parser := Some(p), willparse := [job], busy := true);
    var c3 := After(c2, KeyboardInterrupt([]));
    var gone := ParsePipeline.AfterInterrupt(p);
    var q := ParsePipeline.AfterShutdown(gone, []);
    ParsePipeline.ShutdownLeaves(gone, []);
    ParsePipeline.ShutdownCounts(gone, []);
    assert c3 == Cooker(Initial, true, Some(q), [job], 0, None, false, false, []);
    var c4 := After(c3, Command(true));
    d := After(c4, again);
    assert ParsePipeline.AfterResume(q, {}, []) == (q, ParsePipeline.Returned(ParsePipeline.Complete));
    assert d == c4.(state := Running);
    events := [Command(true), first, KeyboardInterrupt([]), Command(true), again];
    Chain(START, c1, c2, c3, c4, d, events);
  }

  // The first call for a single recipe, with nothing in the cache, waits.
  lemma {:induction false} WaitsAtOnce(job: Job) returns (p: Pipeline)
    ensures ParsePipeline.AfterResume(ParsePipeline.Start([job], 0, 1), {}, []) == (p, ParsePipeline.Waiting)
    ensures p == ParsePipeline.Start([job], 0, 1).(source := ParsePipeline.InGet)
  {
    p := ParsePipeline.Start([job], 0, 1).(source := ParsePipeline.InGet);
    assert 0 in ParsePipeline.UpTo(1);
    assert ParsePipeline.UpTo(1) - {} == ParsePipeline.UpTo(1);
  }

  lemma {:induction false} Chain(c0: Cooker, c1: Cooker, c2: Cooker, c3: Cooker, c4: Cooker, c5: Cooker,
                                 events: seq<Event>)
    requires |events| == 5 && Sound(c0) && Sound(c1) && Sound(c2) && Sound(c3) && Sound(c4) && Sound(c5)
    requires Enabled(c0, events[0]) && After(c0, events[0]) == c1
    requires Enabled(c1, events[1]) && After(c1, events[1]) == c2
    requires Enabled(c2, events[2]) && After(c2, events[2]) == c3
    requires Enabled(c3, events[3]) && After(c3, events[3]) == c4
    requires Enabled(c4, events[4]) && After(c4, events[4]) == c5
    ensures Reaches(c0, events, c5)
  {
    hide After, Enabled, Sound;
    var e4 := events[4..];
    assert e4[1..] == [] && Reaches(c4, e4, c5);
    var e3 := events[3..];
    assert e3[1..] == e4 && Reaches(c3, e3, c5);
    var e2 := events[2..];
    assert e2[1..] == e3 && Reaches(c2, e2, c5);
    var e1 := events[1..];
    assert e1[1..] == e2 && Reaches(c1, e1, c5);
  }

  // ----- the program -----

  class BBCooker {
    var state: State
    var parsecacheValid: bool
    var parser: ParsePipeline.CookerParser?
    var command: Option<bool>
    var registered: bool
    var busy: bool
    ghost var willparse: seq<Job>
    ghost var fromcache: nat
    ghost var executed: seq<(bool, State)>

    constructor ()
      ensures Now() == START
    {
      state, parsecacheValid, parser := Initial, false, null;
      command, registered, busy := None, false, false;
      willparse, fromcache, executed := [], 0, [];
    }

    ghost function Now(): Cooker
      reads this, parser
    {
      Cooker(state, parsecacheValid, if parser == null then None else Some(parser.Now()), willparse, fromcache,
             command, registered, busy, executed)
    }

    method StopParsing(late: seq<nat>)
      modifies parser
      ensures Now() == StopParser(old(Now()), late)
    {
      if parser != null {
        parser.Shutdown(late);
      }
    }

    // `finishAsyncCommand`
    method FinishAsyncCommand(late: seq<nat>)
      modifies this, parser
      ensures parser == old(parser)
      ensures Now() == Finish(old(Now()), late)
    {
      StopParsing(late);
      state := Initial;
      command := None;
    }

    // What the idle loop does with an `idleFinish`.
    method FinishIdle(late: seq<nat>)
      modifies this, parser
      ensures parser == old(parser)
      ensures Now() == IdleFinish(old(Now()), late)
    {
      registered, busy := false, false;
      FinishAsyncCommand(late);
    }

    // `runCommand` with an asynchronous command
    method RunCommand(needcache: bool) returns (accepted: bool)
      modifies this
      ensures accepted <==> old(command).None?
      ensures Now() == Register(old(Now()), needcache)
    {
      if command.Some? {
        return false;
      }
      command, registered := Some(needcache), true;
      return true;
    }

    method RequestStop(force: bool, late: seq<nat>)
      modifies this, parser
      ensures Now() == RequestShutdown(old(Now()), force, late)
    {
      state := if force then Forceshutdown else Shutdown;
      StopParsing(late);
    }

    method RunAsyncCommand(reload: bool, setup: Option<Setup>, gone: set<nat>, late: seq<nat>)
      requires Sound(Now()) && !busy
      modifies this, parser
      ensures Now() == RunAsync(old(Now()), reload, setup, gone, late)
    {
      if state == Error || state == Shutdown || state == Forceshutdown {
        StopParsing(late);
        FinishIdle(late);
        return;
      }
      if command.None? {
        FinishIdle(late);
        return;
      }
      if command.value && state != Running {
        UpdateRecipes(reload, setup, gone, late);
      } else {
        executed := executed + [(command.value, state)];
        registered := false;
      }
    }

    // `updateCache`
    method UpdateRecipes(reload: bool, setup: Option<Setup>, gone: set<nat>, late: seq<nat>)
      requires Sound(Now()) && !busy
      modifies this, parser
      ensures Now() == UpdateCache(old(Now()), reload, setup, gone, late)
    {
      hide ParseNext, IdleFinish;
      if state != Parsing && reload {
        state, parsecacheValid := Initial, false;
      }
      if state == Parsing || parsecacheValid {
        Parse(gone, late);
        return;
      }
      if setup.None? {
        FinishIdle(late);
        return;
      }
      parser := new ParsePipeline.CookerParser(setup.value.willparse, setup.value.fromcache, setup.value.threads);
      willparse, fromcache := setup.value.willparse, setup.value.fromcache;
      parsecacheValid := true;
      Parse({}, late);
    }

    method Parse(gone: set<nat>, late: seq<nat>)
      requires parser != null && parser.results != ParsePipeline.InGet
      modifies this, parser
      ensures parser == old(parser)
      ensures Now() == ParseNext(old(Now()), gone, late)
    {
      state := Parsing;
      var progress := parser.ParseNext(gone, late);
      match progress
      case Waiting =>
        busy := true;
      case Returned(why) =>
        FinishUpdate(why, late);
    }

    method FinishUpdate(why: ParsePipeline.Why, late: seq<nat>)
      requires parser != null
      modifies this, parser
      ensures parser == old(parser)
      ensures Now() == Updated(old(Now()), why, late)
    {
      if why == ParsePipeline.Item || why == ParsePipeline.TimedOut {
        busy := false;
      } else if parser.error > 0 {
        FinishIdle(late);
      } else {
        state, busy := Running, false;
      }
    }

    // The rest of `runAsyncCommand` once the queue has given something, or has not for too long.
    method Resume(late: seq<nat>)
      requires Sound(Now()) && busy
      modifies this, parser
      ensures Now() == GotResult(old(Now()), late)
    {
      var why := parser.ParseGot(late);
      FinishUpdate(why, late);
    }
  }
}
