// Commands on a datastore one after another: what each makes of the contents, the overrides in force and
// the watched variables, and when it is safe for the cache (data_smart.py:542-769).
module StoreCommands {
  import opened Prelude
  import opened Expansion
  import opened OverrideRounds
  import opened StoreOps
  import opened StoreLaws
  import opened StoreRename
  import opened CacheFacts

  datatype Command =
    | SetCommand(v: string, text: string, parsing: bool)
    | EditCommand(v: string, edit: Edit)
    | DelCommand(v: string)
    | RenameCommand(v: string, newname: string)
    | WeakCommand(v: string, text: string)
    | FlagCommand(v: string, flag: string, text: string)
    | ReadCommand(v: string)
    | KeysCommand

  // What a store holds, the overrides in force, and the variables that OVERRIDES may depend on.
  datatype Situation = Situation(st: Store, inForce: Option<seq<string>>, watched: set<string>)

  // The variable that is written, when `v` may be the name of an operator on it.
  function BaseOf(v: string): string {
    var name := ParseName(v);
    if name.Some? then name.value.base else v
  }

  // The name that `appendVar` and `prependVar` give to `setVar`.
  function EditName(v: string, edit: Edit): string {
    v + if edit.AppendText? then ":append" else ":prepend"
  }

  // ----- what a command does -----

  ghost predicate Writes(s: Situation, v: string, text: string, parsing: bool, used: seq<string>, after: Store) {
    && after == AfterSetVar(s.st, v, text, parsing, used)
    && (s.inForce.Some? && ParseName(v).None? && !parsing && v in s.st.recorded ==> used == s.inForce.value)
  }

  // A call of `setVar` with the overrides that decided about the deleted variants.
  lemma SetSteps(s: Situation, depth: nat, v: string, text: string, parsing: bool, used: seq<string>, t: Situation)
    requires Writes(s, v, text, parsing, used, t.st)
    requires s.inForce.Some? && BaseOf(v) !in s.watched ==> t.inForce == s.inForce && t.watched == s.watched
    requires BaseOf(v) in s.watched ==> t.inForce == None && RefsIn(text) + s.watched <= t.watched
    ensures Steps(s, depth, SetCommand(v, text, parsing), t)
  {}

  ghost predicate Outcome(s: Situation, depth: nat, command: Command, after: Store) {
    match command
    case SetCommand(v, text, parsing) => exists used :: Writes(s, v, text, parsing, used, after)
    case EditCommand(v, edit) => after == AfterEdits(s.st, v, [edit])
    case DelCommand(v) => after == AfterDel(s.st, v)
    case RenameCommand(v, newname) => SameOutcome(Ok(after), AfterRename(s.st, v, newname, depth))
    case WeakCommand(v, text) => after == AfterWeak(s.st, v, text)
    case FlagCommand(v, flag, text) => after == AfterFlag(s.st, v, flag, text)
    case ReadCommand(_) => after == s.st
    case KeysCommand => after == s.st
  }

  // Overrides and watched variables change only with a write to a watched variable.
  predicate LeavesWatched(s: Situation, command: Command) {
    match command
    case SetCommand(v, _, _) => BaseOf(v) !in s.watched
    case EditCommand(v, edit) => BaseOf(EditName(v, edit)) !in s.watched
    case WeakCommand(v, _) => v !in s.watched
    case RenameCommand(_, _) => false
    case _ => true
  }

  // The variable that gets a text, directly or by an operator, and the text.
  function TextWritten(command: Command): Option<(string, string)> {
    match command
    case SetCommand(v, text, _) => Some((BaseOf(v), text))
    case EditCommand(v, edit) => Some((BaseOf(EditName(v, edit)), edit.text))
    case WeakCommand(v, text) => Some((v, text))
    case _ => None
  }

  // After a write to a watched variable the overrides have to settle again, and the variables that the text
  // refers to are watched too.
  ghost predicate Steps(s: Situation, depth: nat, command: Command, t: Situation) {
    && Outcome(s, depth, command, t.st)
    && (s.inForce.Some? && LeavesWatched(s, command) ==> t.inForce == s.inForce && t.watched == s.watched)
    && (var w := TextWritten(command);
        w.Some? && w.value.0 in s.watched ==> t.inForce == None && RefsIn(w.value.1) + s.watched <= t.watched)
  }

  // ----- when it is safe -----

  // Settling, if it is done, did not look at `touched`.
  ghost predicate SettlesApart(s: Situation, touched: set<string>) {
    s.inForce.None? || SettlesWithout(s.st, s.inForce.value, touched)
  }

  // The one case in which `setVar` may leave entries in the cache that it read before the write: the
  // overrides still have to settle, `v` has variants, and `v` is not watched.
  predicate IsStale(s: Situation, v: string, parsing: bool) {
    !parsing && ParseName(v).None? && v in s.st.recorded && s.inForce.None? && v !in s.watched
  }

  // `setVar` keeps the cache right: either OVERRIDES may depend on `v` and the overrides settle
  // anew, or settling does not look at what the write touches, be it settling long done or settling for
  // the sake of this write.
  ghost predicate IsSafeToSet(s: Situation, v: string, parsing: bool) {
    if IsStale(s, v, parsing) then StaleIsSafe(s.st, v)
    else if s.inForce.None? then true
    else BaseOf(v) in s.watched || SettlesWithout(s.st, s.inForce.value, SetTouches(s.st, v, parsing, s.inForce.value))
  }

  ghost predicate IsSafe(s: Situation, depth: nat, command: Command) {
    match command
    case SetCommand(v, _, parsing) => IsSafeToSet(s, v, parsing)
    case EditCommand(v, edit) => IsSafeToSet(s, EditName(v, edit), true)
    case DelCommand(v) => SettlesApart(s, DelTouches(v))
    case RenameCommand(v, newname) => SettlesApart(s, RenameTouches(s.st, v, newname, depth))
    case WeakCommand(v, _) => v in s.watched || SettlesApart(s, DelTouches(v))
    case FlagCommand(v, _, _) => SettlesApart(s, DelTouches(v))
    case ReadCommand(_) => RemovesAgree(s.st)
    case KeysCommand => RemovesAgree(s.st)
  }

  // ----- a condition that can be read off the store -----

  // Whatever settling looks at is watched.
  ghost predicate Covered(s: Situation) {
    s.inForce.Some? && SettlesWithin(s.st, s.inForce.value, s.watched)
  }

  // The names whose flags or recorded overrides the command may change: the variable, its colon prefixes,
  // and for a plain write the active variants with theirs.
  function Touches(s: Situation, depth: nat, command: Command): set<string>
    requires s.inForce.Some?
  {
    match command
    case SetCommand(v, _, parsing) => SetTouches(s.st, v, parsing, s.inForce.value)
    case EditCommand(v, edit) => SetTouches(s.st, EditName(v, edit), true, s.inForce.value)
    case DelCommand(v) => DelTouches(v)
    case RenameCommand(v, newname) => RenameTouches(s.st, v, newname, depth)
    case WeakCommand(v, _) => DelTouches(v)
    case FlagCommand(v, _, _) => DelTouches(v)
    case ReadCommand(_) => {}
    case KeysCommand => {}
  }

  // The command touches nothing watched; a read needs removes that agree.
  ghost predicate Quiet(s: Situation, depth: nat, command: Command)
    requires s.inForce.Some?
  {
    && Touches(s, depth, command) !! s.watched
    && (command.ReadCommand? || command.KeysCommand? ==> RemovesAgree(s.st))
  }

  lemma {:induction false} WithinIsWithout(st: Store, o: seq<string>, names: set<string>, touched: set<string>)
    requires SettlesWithin(st, o, names) && touched !! names
    ensures SettlesWithout(st, o, touched)
  {
    hide RoundsTouch;
    var n: nat, k: nat :| RunSettles(st, o, n, k) && RoundsTouch(st, n, k + 1) <= names;
    assert RoundsTouch(st, n, k + 1) !! touched;
  }

  // Where whatever settling looks at is watched, it is enough that the command touches nothing watched,
  // or writes a watched variable itself.
  lemma {:induction false} QuietIsSafe(s: Situation, depth: nat, command: Command)
    requires Covered(s)
    ensures Quiet(s, depth, command) ==> IsSafe(s, depth, command)
    ensures command.SetCommand? && BaseOf(command.v) in s.watched ==> IsSafe(s, depth, command)
    ensures command.EditCommand? && BaseOf(EditName(command.v, command.edit)) in s.watched ==> IsSafe(s, depth, command)
    ensures command.WeakCommand? && command.v in s.watched ==> IsSafe(s, depth, command)
  {
    hide SettlesWithout, SettlesWithin, RemovesAgree, SetTouches, DelTouches, RenameTouches;
    if Quiet(s, depth, command) {
      WithinIsWithout(s.st, s.inForce.value, s.watched, Touches(s, depth, command));
    }
  }

  lemma {:induction false} OutcomeTouchesOnly(s: Situation, depth: nat, command: Command, after: Store)
    requires s.inForce.Some? && Outcome(s, depth, command, after) && !command.RenameCommand?
    ensures SameBut(s.st, after, Touches(s, depth, command))
  {
    hide AfterSetVar, SetTouches, AfterDel;
    match command
    case SetCommand(v, text, parsing) =>
      var used :| Writes(s, v, text, parsing, used, after);
      SameWrite(s.st, v, text, parsing, used, s.inForce.value);
      SetTouchesOnly(s.st, v, text, parsing, s.inForce.value);
    case EditCommand(v, edit) =>
      EditIsWrite(s.st, v, edit, s.inForce.value);
      SetTouchesOnly(s.st, EditName(v, edit), edit.text, true, s.inForce.value);
    case DelCommand(v) => DelTouchesOnly(s.st, v);
    case WeakCommand(v, text) => RecordNameTouches(s.st.recorded, v);
    case FlagCommand(v, flag, text) =>
    case ReadCommand(_) =>
    case KeysCommand =>
  }

  // The overrides count only for a plain write of a variable with recorded variants.
  lemma {:induction false} SameWrite(st: Store, v: string, text: string, parsing: bool, used: seq<string>,
                                     o: seq<string>)
    requires ParseName(v).None? && !parsing && v in st.recorded ==> used == o
    ensures AfterSetVar(st, v, text, parsing, used) == AfterSetVar(st, v, text, parsing, o)
  {}

  lemma {:induction false} EditIsWrite(st: Store, v: string, edit: Edit, o: seq<string>)
    ensures AfterEdits(st, v, [edit]) == AfterSetVar(st, EditName(v, edit), edit.text, true, o)
  {
    assert [edit][1..] == [];
    SameWrite(st, EditName(v, edit), edit.text, true, [], o);
  }

  // Such a command leaves the condition as it is.
  lemma {:induction false} QuietStaysCovered(s: Situation, depth: nat, command: Command, t: Situation)
    requires Covered(s) && Quiet(s, depth, command) && Steps(s, depth, command, t) && LeavesWatched(s, command)
    ensures Covered(t) && t.inForce == s.inForce && t.watched == s.watched
  {
    hide SettlesWithin, RemovesAgree, Outcome, Touches;
    OutcomeTouchesOnly(s, depth, command, t.st);
    SettlesWithinStays(s.st, t.st, s.inForce.value, s.watched);
  }

  // A command that touches nothing watched writes no watched variable.
  lemma {:induction false} QuietLeavesWatched(s: Situation, depth: nat, command: Command)
    requires s.inForce.Some? && Quiet(s, depth, command) && !command.RenameCommand?
    ensures LeavesWatched(s, command)
  {
    match command
    case SetCommand(v, _, parsing) => BaseIsTouched(s.st, v, parsing, s.inForce.value);
    case EditCommand(v, edit) => BaseIsTouched(s.st, EditName(v, edit), true, s.inForce.value);
    case WeakCommand(v, _) => assert v in DelTouches(v);
    case DelCommand(_) =>
    case FlagCommand(_, _, _) =>
    case ReadCommand(_) =>
    case KeysCommand =>
  }

  lemma BaseIsTouched(st: Store, v: string, parsing: bool, o: seq<string>)
    ensures BaseOf(v) in SetTouches(st, v, parsing, o)
  {}

  // ----- runs -----

  // The situations before, between and after the commands.
  ghost predicate Runs(trace: seq<Situation>, depth: nat, commands: seq<Command>) {
    |trace| == |commands| + 1 && forall i :: 0 <= i < |commands| ==> Steps(trace[i], depth, commands[i], trace[i + 1])
  }

  ghost predicate IsSafeRun(trace: seq<Situation>, depth: nat, commands: seq<Command>) {
    |trace| == |commands| + 1 && forall i :: 0 <= i < |commands| ==> IsSafe(trace[i], depth, commands[i])
  }

  ghost predicate IsQuietRun(trace: seq<Situation>, depth: nat, commands: seq<Command>) {
    |trace| == |commands| + 1 && forall i :: 0 <= i < |commands| ==>
      trace[i].inForce.Some? && Quiet(trace[i], depth, commands[i]) && !commands[i].RenameCommand?
  }

  // With the condition at the start, a run that never touches anything watched is safe throughout, and the
  // overrides in force stay those that OVERRIDES settles on.
  lemma {:induction false} QuietRunIsSafe(trace: seq<Situation>, depth: nat, commands: seq<Command>)
    requires Runs(trace, depth, commands) && IsQuietRun(trace, depth, commands) && Covered(trace[0])
    ensures IsSafeRun(trace, depth, commands)
    ensures forall i :: 0 <= i <= |commands| ==>
      Covered(trace[i]) && trace[i].inForce == trace[0].inForce && trace[i].watched == trace[0].watched
  {
    hide Steps, Quiet, Covered, IsSafe;
    for i := 0 to |commands|
      invariant forall j :: 0 <= j <= i ==>
        Covered(trace[j]) && trace[j].inForce == trace[0].inForce && trace[j].watched == trace[0].watched
      invariant forall j :: 0 <= j < i ==> IsSafe(trace[j], depth, commands[j])
    {
      QuietIsSafe(trace[i], depth, commands[i]);
      QuietLeavesWatched(trace[i], depth, commands[i]);
      QuietStaysCovered(trace[i], depth, commands[i], trace[i + 1]);
    }
  }

  // A run with one more command.
  lemma {:induction false} RunsOneMore(trace: seq<Situation>, depth: nat, commands: seq<Command>, command: Command,
                                       t: Situation)
    requires Runs(trace, depth, commands) && Steps(trace[|commands|], depth, command, t)
    ensures Runs(trace + [t], depth, commands + [command])
  {
    hide Steps;
    var (more, later) := (commands + [command], trace + [t]);
    forall i | 0 <= i < |more| ensures Steps(later[i], depth, more[i], later[i + 1]) {
      if i < |commands| {
        assert later[i] == trace[i] && later[i + 1] == trace[i + 1] && more[i] == commands[i];
      }
    }
  }

  lemma {:induction false} SafeSoFar(trace: seq<Situation>, depth: nat, commands: seq<Command>, command: Command,
                                     t: Situation)
    requires |trace| == |commands| + 1 && IsSafeRun(trace + [t], depth, commands + [command])
    ensures IsSafeRun(trace, depth, commands) && IsSafe(trace[|commands|], depth, command)
  {
    hide IsSafe;
    var (more, later) := (commands + [command], trace + [t]);
    forall i | 0 <= i < |commands| ensures IsSafe(trace[i], depth, commands[i]) {
      assert later[i] == trace[i] && more[i] == commands[i];
    }
    assert later[|commands|] == trace[|commands|] && more[|commands|] == command;
  }
}
