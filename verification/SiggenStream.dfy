// The stream of signature data between parser processes, the server and the cache files
// (cache.py:250-338): a value is sent once and referred to by its number from then on.
module SiggenStream {
  import opened Prelude

  // Variable values and sets of variable names.
  datatype Value = Text(text: string) | Names(names: set<string>)

  // A dictionary in insertion order.
  type Entries = seq<(string, Option<Value>)>

  // `(dep, fs, mapnum)`
  datatype Triple = Triple(dep: string, fs: Option<Value>, mapnum: Option<nat>)

  datatype KeyError = KeyError(number: nat)

  // What a process remembers of the stream that it is writing.
  datatype Writer = Writer(saveMap: map<Value, nat>, saveCount: nat)

  const NEW_WRITER := Writer(map[], 1)

  // ----- saving -----

  function SaveOne(w: Writer, entry: (string, Option<Value>)): (Writer, Triple) {
    match entry.1
    case None => (w, Triple(entry.0, None, None))
    case Some(v) =>
      if v in w.saveMap then (w, Triple(entry.0, None, Some(w.saveMap[v])))
      else (Writer(w.saveMap[v := w.saveCount], w.saveCount + 1), Triple(entry.0, Some(v), Some(w.saveCount)))
  }

  function SaveAll(w: Writer, entries: Entries): (Writer, seq<Triple>)
    decreases |entries|
  {
    if entries == [] then (w, [])
    else
      var (x, t) := SaveOne(w, entries[0]);
      var (y, ts) := SaveAll(x, entries[1..]);
      (y, [t] + ts)
  }

  // ----- restoring -----

  function RestoreOne(m: map<nat, Value>, t: Triple): Result<(map<nat, Value>, Option<Value>), KeyError> {
    match (t.fs, t.mapnum)
    case (None, None) => Ok((m, None))
    case (None, Some(n)) => if n in m then Ok((m, Some(m[n]))) else Err(KeyError(n))
    case (Some(v), Some(n)) => Ok((m[n := v], Some(v)))
    case (Some(v), None) => Ok((m, Some(v)))
  }

  function RestoreAll(m: map<nat, Value>, ts: seq<Triple>): Result<(map<nat, Value>, Entries), KeyError>
    decreases |ts|
  {
    if ts == [] then Ok((m, []))
    else match RestoreOne(m, ts[0])
      case Err(e) => Err(e)
      case Ok((m', v)) =>
        (match RestoreAll(m', ts[1..])
         case Err(e) => Err(e)
         case Ok((m'', entries)) => Ok((m'', [(ts[0].dep, v)] + entries)))
  }

  // ----- round trip of one dictionary -----

  predicate Numbered(w: Writer) {
    w.saveCount >= 1 && forall v :: v in w.saveMap ==> 1 <= w.saveMap[v] < w.saveCount
  }

  // The reader knows every number that the writer may refer to.
  predicate Knows(w: Writer, m: map<nat, Value>) {
    forall v :: v in w.saveMap ==> w.saveMap[v] in m && m[w.saveMap[v]] == v
  }

  lemma {:induction false} RoundTripOne(w: Writer, m: map<nat, Value>, entry: (string, Option<Value>))
    requires Numbered(w) && Knows(w, m)
    ensures var (x, t) := SaveOne(w, entry); var r := RestoreOne(m, t);
      Numbered(x) && r.Ok? && r.value.1 == entry.1 && t.dep == entry.0 && Knows(x, r.value.0)
  {
    if entry.1.Some? && entry.1.value !in w.saveMap {
      var v := entry.1.value;
      var (x, t) := SaveOne(w, entry);
      var m' := m[w.saveCount := v];
      assert t == Triple(entry.0, Some(v), Some(w.saveCount)) && x.saveMap == w.saveMap[v := w.saveCount];
      assert RestoreOne(m, t) == Ok((m', entry.1));
      forall u | u in x.saveMap ensures x.saveMap[u] in m' && m'[x.saveMap[u]] == u {
        assert u != v ==> w.saveMap[u] < w.saveCount;
      }
    }
  }

  lemma {:induction false} RoundTrip(w: Writer, m: map<nat, Value>, entries: Entries)
    requires Numbered(w) && Knows(w, m)
    ensures var (x, ts) := SaveAll(w, entries); var r := RestoreAll(m, ts);
      Numbered(x) && r.Ok? && r.value.1 == entries && Knows(x, r.value.0)
    decreases |entries|
  {
    if entries != [] {
      var (x, t) := SaveOne(w, entries[0]);
      RoundTripOne(w, m, entries[0]);
      var m' := RestoreOne(m, t).value.0;
      RoundTrip(x, m', entries[1..]);
      var (y, ts) := SaveAll(x, entries[1..]);
      assert SaveAll(w, entries).1[1..] == ts;
      assert [(t.dep, entries[0].1)] + entries[1..] == entries;
    }
  }

  // Every number that is only referred to was defined earlier in the list.
  predicate DefinedBefore(ts: seq<Triple>) {
    forall i :: 0 <= i < |ts| && ts[i].fs.None? && ts[i].mapnum.Some? ==> DefinedIn(ts[..i], ts[i].mapnum.value)
  }

  predicate DefinedIn(ts: seq<Triple>, n: nat) {
    exists j :: 0 <= j < |ts| && ts[j].fs.Some? && ts[j].mapnum == Some(n)
  }

  // The numbers that the stream has defined so far.
  ghost predicate Sent(w: Writer, stream: seq<Triple>) {
    forall v :: v in w.saveMap ==> DefinedIn(stream, w.saveMap[v])
  }

  lemma {:induction false} ReferencesAreDefined(w: Writer, stream: seq<Triple>, entries: Entries)
    requires Sent(w, stream) && DefinedBefore(stream)
    ensures var (x, ts) := SaveAll(w, entries); Sent(x, stream + ts) && DefinedBefore(stream + ts)
    decreases |entries|
  {
    if entries == [] {
      assert stream + [] == stream;
    } else {
      var (x, t) := SaveOne(w, entries[0]);
      var more := stream + [t];
      forall n: nat | DefinedIn(stream, n) ensures DefinedIn(more, n) {
        var j :| 0 <= j < |stream| && stream[j].fs.Some? && stream[j].mapnum == Some(n);
        assert more[j] == stream[j];
      }
      assert more[|stream|] == t;
      forall i | 0 <= i < |more| && more[i].fs.None? && more[i].mapnum.Some?
        ensures DefinedIn(more[..i], more[i].mapnum.value) {
        if i < |stream| {
          assert more[i] == stream[i] && more[..i] == stream[..i];
        } else {
          assert more[..i] == stream;
        }
      }
      ReferencesAreDefined(x, more, entries[1..]);
      assert stream + ([t] + SaveAll(x, entries[1..]).1) == more + SaveAll(x, entries[1..]).1;
    }
  }

  // ----- whole objects -----

  // The three tables of one recipe; None and the empty dictionary are sent as they are.
  datatype Info = Info(gendeps: Option<Entries>, taskdeps: Option<Entries>, varvals: Option<Entries>)

  datatype State = State(gendeps: Option<seq<Triple>>, taskdeps: Option<seq<Triple>>, varvals: Option<seq<Triple>>)

  function SaveTable(w: Writer, table: Option<Entries>): (Writer, Option<seq<Triple>>) {
    match table
    case None => (w, None)
    case Some(entries) => var (x, ts) := SaveAll(w, entries); (x, Some(ts))
  }

  function RestoreTable(m: map<nat, Value>, table: Option<seq<Triple>>): Result<(map<nat, Value>, Option<Entries>),
                        KeyError> {
    match table
    case None => Ok((m, None))
    case Some(ts) =>
      match RestoreAll(m, ts)
      case Err(e) => Err(e)
      case Ok((m', entries)) => Ok((m', Some(entries)))
  }

  // `__getstate__`
  function Save(w: Writer, info: Info): (Writer, State) {
    var (x, gendeps) := SaveTable(w, info.gendeps);
    var (y, taskdeps) := SaveTable(x, info.taskdeps);
    var (z, varvals) := SaveTable(y, info.varvals);
    (z, State(gendeps, taskdeps, varvals))
  }

  // `__setstate__`
  function Restore(m: map<nat, Value>, state: State): Result<(map<nat, Value>, Info), KeyError> {
    match RestoreTable(m, state.gendeps)
    case Err(e) => Err(e)
    case Ok((x, gendeps)) =>
      match RestoreTable(x, state.taskdeps)
      case Err(e) => Err(e)
      case Ok((y, taskdeps)) =>
        match RestoreTable(y, state.varvals)
        case Err(e) => Err(e)
        case Ok((z, varvals)) => Ok((z, Info(gendeps, taskdeps, varvals)))
  }

  lemma {:induction false} TableRoundTrip(w: Writer, m: map<nat, Value>, table: Option<Entries>)
    requires Numbered(w) && Knows(w, m)
    ensures var (x, t) := SaveTable(w, table); var r := RestoreTable(m, t);
      Numbered(x) && r.Ok? && r.value.1 == table && Knows(x, r.value.0)
  {
    if table.Some? {
      RoundTrip(w, m, table.value);
    }
  }

  lemma {:induction false} InfoRoundTrip(w: Writer, m: map<nat, Value>, info: Info)
    requires Numbered(w) && Knows(w, m)
    ensures var (x, state) := Save(w, info); var r := Restore(m, state);
      Numbered(x) && r.Ok? && r.value.1 == info && Knows(x, r.value.0)
  {
    TableRoundTrip(w, m, info.gendeps);
    var (x, gendeps) := SaveTable(w, info.gendeps);
    var m1 := RestoreTable(m, gendeps).value.0;
    TableRoundTrip(x, m1, info.taskdeps);
    var (y, taskdeps) := SaveTable(x, info.taskdeps);
    TableRoundTrip(y, RestoreTable(m1, taskdeps).value.0, info.varvals);
  }

  function TriplesOf(table: Option<seq<Triple>>): seq<Triple> {
    if table.Some? then table.value else []
  }

  // All triples of a stream of objects, in the order in which they are written.
  function Stream(w: Writer, infos: seq<Info>): seq<Triple>
    decreases |infos|
  {
    if infos == [] then []
    else
      var (x, state) := Save(w, infos[0]);
      TriplesOf(state.gendeps) + TriplesOf(state.taskdeps) + TriplesOf(state.varvals) + Stream(x, infos[1..])
  }

  lemma {:induction false} TableReferences(w: Writer, stream: seq<Triple>, table: Option<Entries>)
    requires Sent(w, stream) && DefinedBefore(stream)
    ensures var (x, t) := SaveTable(w, table); Sent(x, stream + TriplesOf(t)) && DefinedBefore(stream + TriplesOf(t))
  {
    assert stream + [] == stream;
    if table.Some? {
      ReferencesAreDefined(w, stream, table.value);
    }
  }

  lemma {:induction false} StreamReferences(w: Writer, stream: seq<Triple>, infos: seq<Info>)
    requires Sent(w, stream) && DefinedBefore(stream)
    ensures DefinedBefore(stream + Stream(w, infos))
    decreases |infos|
  {
    hide DefinedBefore, Sent, SaveTable;
    if infos == [] {
      assert stream + [] == stream;
    } else {
      var (x, gendeps) := SaveTable(w, infos[0].gendeps);
      var (y, taskdeps) := SaveTable(x, infos[0].taskdeps);
      var (z, varvals) := SaveTable(y, infos[0].varvals);
      var (a, b, c) := (TriplesOf(gendeps), TriplesOf(taskdeps), TriplesOf(varvals));
      TableReferences(w, stream, infos[0].gendeps);
      TableReferences(x, stream + a, infos[0].taskdeps);
      TableReferences(y, stream + a + b, infos[0].varvals);
      StreamReferences(z, stream + a + b + c, infos[1..]);
      var rest := Stream(z, infos[1..]);
      assert stream + (a + b + c + rest) == (stream + a + b + c) + rest;
    }
  }

  // In a stream that is written from a reset on, every number that stands for a value was defined
  // earlier in the stream.
  lemma {:induction false} StreamDefinesFirst(infos: seq<Info>)
    ensures DefinedBefore(Stream(NEW_WRITER, infos))
  {
    StreamReferences(NEW_WRITER, [], infos);
    assert [] + Stream(NEW_WRITER, infos) == Stream(NEW_WRITER, infos);
  }

  // ----- each value is sent once -----

  predicate NoneTwice(ts: seq<Triple>) {
    forall i, j :: 0 <= i < j < |ts| && ts[i].fs.Some? ==> ts[i].fs != ts[j].fs
  }

  // Every value that the stream holds has its number.
  ghost predicate HasNumbers(w: Writer, stream: seq<Triple>) {
    forall t :: t in stream && t.fs.Some? ==> t.fs.value in w.saveMap
  }

  lemma {:induction false} SentOnce(w: Writer, stream: seq<Triple>, entries: Entries)
    requires HasNumbers(w, stream) && NoneTwice(stream)
    ensures var (x, ts) := SaveAll(w, entries); HasNumbers(x, stream + ts) && NoneTwice(stream + ts)
    decreases |entries|
  {
    if entries == [] {
      assert stream + [] == stream;
    } else {
      var (x, t) := SaveOne(w, entries[0]);
      var more := stream + [t];
      assert t.fs.Some? ==> forall i :: 0 <= i < |stream| ==> stream[i] in stream && stream[i].fs != t.fs;
      SentOnce(x, more, entries[1..]);
      assert stream + ([t] + SaveAll(x, entries[1..]).1) == more + SaveAll(x, entries[1..]).1;
    }
  }

  lemma {:induction false} TableSentOnce(w: Writer, stream: seq<Triple>, table: Option<Entries>)
    requires HasNumbers(w, stream) && NoneTwice(stream)
    ensures var (x, t) := SaveTable(w, table); HasNumbers(x, stream + TriplesOf(t)) && NoneTwice(stream + TriplesOf(t))
  {
    assert stream + [] == stream;
    if table.Some? {
      SentOnce(w, stream, table.value);
    }
  }

  lemma {:induction false} InfosSentOnce(w: Writer, stream: seq<Triple>, infos: seq<Info>)
    requires HasNumbers(w, stream) && NoneTwice(stream)
    ensures NoneTwice(stream + Stream(w, infos))
    decreases |infos|
  {
    hide NoneTwice, HasNumbers, SaveTable;
    if infos == [] {
      assert stream + [] == stream;
    } else {
      var (x, gendeps) := SaveTable(w, infos[0].gendeps);
      var (y, taskdeps) := SaveTable(x, infos[0].taskdeps);
      var (z, varvals) := SaveTable(y, infos[0].varvals);
      var (a, b, c) := (TriplesOf(gendeps), TriplesOf(taskdeps), TriplesOf(varvals));
      TableSentOnce(w, stream, infos[0].gendeps);
      TableSentOnce(x, stream + a, infos[0].taskdeps);
      TableSentOnce(y, stream + a + b, infos[0].varvals);
      InfosSentOnce(z, stream + a + b + c, infos[1..]);
      var rest := Stream(z, infos[1..]);
      assert stream + (a + b + c + rest) == (stream + a + b + c) + rest;
    }
  }

  // In a stream that is written from a reset on, no value is sent twice.
  lemma {:induction false} StreamSendsOnce(infos: seq<Info>)
    ensures NoneTwice(Stream(NEW_WRITER, infos))
  {
    InfosSentOnce(NEW_WRITER, [], infos);
    assert [] + Stream(NEW_WRITER, infos) == Stream(NEW_WRITER, infos);
  }

  // ----- many writers, one reader -----

  type Pid = nat

  // `sent` is what the writer has sent and the reader has not read yet, with what it stands for.
  datatype Channel = Channel(writer: Writer, sent: seq<(State, Info)>)

  datatype System = System(channels: map<Pid, Channel>, restoreMap: map<Pid, map<nat, Value>>)

  const START := System(map[], map[])

  datatype Event =
    | Send(pid: Pid, info: Info)   // one more object in the stream of `pid`
    | ResetWriter(pid: Pid)        // `reset` in the writing process
    | Read(pid: Pid)               // the reader takes the next object of `pid`

  function ChannelOf(s: System, pid: Pid): Channel {
    if pid in s.channels then s.channels[pid] else Channel(NEW_WRITER, [])
  }

  function MapOf(s: System, pid: Pid): map<nat, Value> {
    if pid in s.restoreMap then s.restoreMap[pid] else map[]
  }

  predicate Enabled(s: System, e: Event) {
    e.Read? ==> ChannelOf(s, e.pid).sent != []
  }

  // The next state, and what a read gives.
  function Step(s: System, e: Event): (System, Option<Result<Info, KeyError>>)
    requires Enabled(s, e)
  {
    var c := ChannelOf(s, e.pid);
    match e
    case Send(pid, info) =>
      var (w, state) := Save(c.writer, info);
      (s.(channels := s.channels[pid := Channel(w, c.sent + [(state, info)])]), None)
    case ResetWriter(pid) => (s.(channels := s.channels[pid := c.(writer := NEW_WRITER)]), None)
    case Read(pid) =>
      var rest := s.channels[pid := c.(sent := c.sent[1..])];
      match Restore(MapOf(s, pid), c.sent[0].0)
      case Err(error) => (s.(channels := rest), Some(Err(error)))
      case Ok((m, info)) => (System(rest, s.restoreMap[pid := m]), Some(Ok(info)))
  }

  // Read in order from `m`, everything in the channel comes out as it went in, and after that the
  // reader knows all the numbers of the writer.
  predicate InOrder(m: map<nat, Value>, sent: seq<(State, Info)>, w: Writer)
    decreases |sent|
  {
    if sent == [] then Knows(w, m)
    else match Restore(m, sent[0].0)
      case Err(_) => false
      case Ok((m', info)) => info == sent[0].1 && InOrder(m', sent[1..], w)
  }

  ghost predicate Inv(s: System) {
    forall pid :: pid in s.channels ==>
      Numbered(s.channels[pid].writer) && InOrder(MapOf(s, pid), s.channels[pid].sent, s.channels[pid].writer)
  }

  lemma {:induction false} InOrderSend(m: map<nat, Value>, sent: seq<(State, Info)>, w: Writer, info: Info)
    requires InOrder(m, sent, w) && Numbered(w)
    ensures var (x, state) := Save(w, info); InOrder(m, sent + [(state, info)], x) && Numbered(x)
    decreases |sent|
  {
    var (x, state) := Save(w, info);
    if sent == [] {
      InfoRoundTrip(w, m, info);
      assert sent + [(state, info)] == [(state, info)] && [(state, info)][1..] == [];
    } else {
      InOrderSend(Restore(m, sent[0].0).value.0, sent[1..], w, info);
      assert (sent + [(state, info)])[1..] == sent[1..] + [(state, info)];
    }
  }

  lemma {:induction false} InOrderReset(m: map<nat, Value>, sent: seq<(State, Info)>, w: Writer)
    requires InOrder(m, sent, w)
    ensures InOrder(m, sent, NEW_WRITER)
    decreases |sent|
  {
    if sent != [] {
      InOrderReset(Restore(m, sent[0].0).value.0, sent[1..], w);
    }
  }

  // Whatever the interleaving, and wherever the writers start their streams anew, each read gives
  // exactly what was saved.
  lemma {:induction false} StepRestores(s: System, e: Event)
    requires Inv(s) && Enabled(s, e)
    ensures Inv(Step(s, e).0)
    ensures e.Read? ==> Step(s, e).1 == Some(Ok(ChannelOf(s, e.pid).sent[0].1))
  {
    var c := ChannelOf(s, e.pid);
    assert e.pid !in s.channels ==> InOrder(MapOf(s, e.pid), [], NEW_WRITER);
    if e.pid in s.channels || !e.Read? {
      match e
      case Send(_, info) => InOrderSend(MapOf(s, e.pid), c.sent, c.writer, info);
      case ResetWriter(_) => InOrderReset(MapOf(s, e.pid), c.sent, c.writer);
      case Read(_) =>
    }
  }

  // The results of all reads of a run, and what was saved for them.
  function Run(s: System, events: seq<Event>): seq<(Result<Info, KeyError>, Info)>
    decreases |events|
  {
    if events == [] || !Enabled(s, events[0]) then []
    else
      var (t, r) := Step(s, events[0]);
      (match r case None => [] case Some(result) => [(result, ChannelOf(s, events[0].pid).sent[0].1)])
        + Run(t, events[1..])
  }

  lemma {:induction false} EveryReadRestores(s: System, events: seq<Event>)
    requires Inv(s)
    ensures forall x :: x in Run(s, events) ==> x.0 == Ok(x.1)
    decreases |events|
  {
    if events != [] && Enabled(s, events[0]) {
      StepRestores(s, events[0]);
      EveryReadRestores(Step(s, events[0]).0, events[1..]);
    }
  }

  lemma {:induction false} StreamsRoundTrip(events: seq<Event>)
    ensures forall x :: x in Run(START, events) ==> x.0 == Ok(x.1)
  {
    EveryReadRestores(START, events);
  }

  // ----- a reader that does not know all numbers -----

  // The reader has something under the number of `v`, if the writer has given it one.
  predicate Finds(w: Writer, m: map<nat, Value>, v: Value) {
    v in w.saveMap ==> w.saveMap[v] in m
  }

  predicate FindsRight(w: Writer, m: map<nat, Value>, v: Value) {
    v in w.saveMap ==> w.saveMap[v] in m && m[w.saveMap[v]] == v
  }

  // The same numbers are known after more of the stream, but for those that it has defined.
  ghost predicate AsBefore(w: Writer, m: map<nat, Value>, w': Writer, m': map<nat, Value>) {
    forall v :: (Finds(w', m', v) <==> Finds(w, m, v)) && (FindsRight(w', m', v) <==> FindsRight(w, m, v))
  }

  ghost predicate AllFound(w: Writer, m: map<nat, Value>, values: set<Value>) {
    forall v :: v in values ==> Finds(w, m, v)
  }

  ghost predicate AllFoundRight(w: Writer, m: map<nat, Value>, values: set<Value>) {
    forall v :: v in values ==> FindsRight(w, m, v)
  }

  lemma {:induction false} FoundTogether(w: Writer, m: map<nat, Value>, a: set<Value>, b: set<Value>)
    ensures AllFound(w, m, a + b) <==> AllFound(w, m, a) && AllFound(w, m, b)
    ensures AllFoundRight(w, m, a + b) <==> AllFoundRight(w, m, a) && AllFoundRight(w, m, b)
  {
    hide Finds, FindsRight;
  }

  lemma {:induction false} FoundAsBefore(w: Writer, m: map<nat, Value>, w': Writer, m': map<nat, Value>, b: set<Value>)
    requires AsBefore(w, m, w', m')
    ensures AllFound(w', m', b) <==> AllFound(w, m, b)
    ensures AllFoundRight(w', m', b) <==> AllFoundRight(w, m, b)
  {
    hide Finds, FindsRight;
  }

  lemma BeforeThat(w: Writer, m: map<nat, Value>, x: Writer, m1: map<nat, Value>, y: Writer, m2: map<nat, Value>)
    requires AsBefore(w, m, x, m1) && AsBefore(x, m1, y, m2)
    ensures AsBefore(w, m, y, m2)
  {
    hide Finds, FindsRight;
  }

  function ValuesOf(entries: Entries): set<Value> {
    set e | e in entries && e.1.Some? :: e.1.value
  }

  function OneValue(value: Option<Value>): set<Value> {
    if value.Some? then {value.value} else {}
  }

  lemma {:induction false} RestoreOneIff(w: Writer, m: map<nat, Value>, entry: (string, Option<Value>))
    requires Numbered(w)
    ensures var (x, t) := SaveOne(w, entry); var r := RestoreOne(m, t);
      && Numbered(x) && t.dep == entry.0 && (r.Ok? <==> AllFound(w, m, OneValue(entry.1)))
      && (r.Ok? ==> (r.value.1 == entry.1 <==> AllFoundRight(w, m, OneValue(entry.1))))
      && (r.Ok? ==> AsBefore(w, m, x, r.value.0))
  {
    assert entry.1.Some? ==> entry.1.value in OneValue(entry.1);
  }

  lemma {:induction false} RestoreAllIff(w: Writer, m: map<nat, Value>, entries: Entries)
    requires Numbered(w)
    ensures var (x, ts) := SaveAll(w, entries); var r := RestoreAll(m, ts);
      && Numbered(x) && (r.Ok? <==> AllFound(w, m, ValuesOf(entries)))
      && (r.Ok? ==> (r.value.1 == entries <==> AllFoundRight(w, m, ValuesOf(entries))))
      && (r.Ok? ==> AsBefore(w, m, x, r.value.0))
    decreases |entries|
  {
    hide SaveOne, RestoreOne, Numbered;
    if entries != [] {
      hide AllFound, AllFoundRight, AsBefore, ValuesOf, OneValue;
      var (x, t) := SaveOne(w, entries[0]);
      RestoreOneIff(w, m, entries[0]);
      FirstValue(entries);
      FoundTogether(w, m, OneValue(entries[0].1), ValuesOf(entries[1..]));
      var (y, ts) := SaveAll(x, entries[1..]);
      assert SaveAll(w, entries) == (y, [t] + ts) && ([t] + ts)[1..] == ts;
      RestoreAllIff(x, m, entries[1..]);
      var one := RestoreOne(m, t);
      if one.Ok? {
        var m1 := one.value.0;
        FoundAsBefore(w, m, x, m1, ValuesOf(entries[1..]));
        RestoreAllIff(x, m1, entries[1..]);
        var rest := RestoreAll(m1, ts);
        if rest.Ok? {
          BeforeThat(w, m, x, m1, y, rest.value.0);
          SameParts((t.dep, one.value.1), rest.value.1, entries);
        }
      }
    }
  }

  lemma SameParts<T>(x: T, rest: seq<T>, all: seq<T>)
    requires all != []
    ensures [x] + rest == all <==> x == all[0] && rest == all[1..]
  {
    assert all == [all[0]] + all[1..] && ([x] + rest)[1..] == rest && ([x] + rest)[0] == x;
  }

  lemma {:induction false} FirstValue(entries: Entries)
    requires entries != []
    ensures ValuesOf(entries) == OneValue(entries[0].1) + ValuesOf(entries[1..])
  {
    assert entries == [entries[0]] + entries[1..];
  }

  function TableValues(table: Option<Entries>): set<Value> {
    if table.Some? then ValuesOf(table.value) else {}
  }

  function InfoValues(info: Info): set<Value> {
    TableValues(info.gendeps) + TableValues(info.taskdeps) + TableValues(info.varvals)
  }

  lemma {:induction false} RestoreTableIff(w: Writer, m: map<nat, Value>, table: Option<Entries>)
    requires Numbered(w)
    ensures var (x, t) := SaveTable(w, table); var r := RestoreTable(m, t);
      && Numbered(x) && (r.Ok? <==> AllFound(w, m, TableValues(table)))
      && (r.Ok? ==> (r.value.1 == table <==> AllFoundRight(w, m, TableValues(table))))
      && (r.Ok? ==> AsBefore(w, m, x, r.value.0))
  {
    hide Numbered;
    if table.Some? {
      RestoreAllIff(w, m, table.value);
    }
  }

  // An object is read without an error if and only if the reader has something under each number that it
  // refers to, and as it was saved if and only if these are the right values. After that the same older
  // numbers are known as before.
  lemma {:induction false} RestoreIff(w: Writer, m: map<nat, Value>, info: Info)
    requires Numbered(w)
    ensures var (x, state) := Save(w, info); var r := Restore(m, state);
      && Numbered(x) && (r.Ok? <==> AllFound(w, m, InfoValues(info)))
      && (r.Ok? ==> (r.value.1 == info <==> AllFoundRight(w, m, InfoValues(info))))
      && (r.Ok? ==> AsBefore(w, m, x, r.value.0))
  {
    hide Numbered, SaveTable, RestoreTable, TableValues, AllFound, AllFoundRight, AsBefore;
    var (a, b, c) := (TableValues(info.gendeps), TableValues(info.taskdeps), TableValues(info.varvals));
    FoundTogether(w, m, a, b);
    FoundTogether(w, m, a + b, c);
    var (x, gendeps) := SaveTable(w, info.gendeps);
    RestoreTableIff(w, m, info.gendeps);
    var (y, taskdeps) := SaveTable(x, info.taskdeps);
    RestoreTableIff(x, m, info.taskdeps);
    RestoreTableIff(y, m, info.varvals);
    var one := RestoreTable(m, gendeps);
    if one.Ok? {
      var m1 := one.value.0;
      FoundAsBefore(w, m, x, m1, b);
      RestoreTableIff(x, m1, info.taskdeps);
      var two := RestoreTable(m1, taskdeps);
      if two.Ok? {
        BeforeThat(w, m, x, m1, y, two.value.0);
        FoundAsBefore(w, m, y, two.value.0, c);
        RestoreTableIff(y, two.value.0, info.varvals);
        var (z, varvals) := SaveTable(y, info.varvals);
        var three := RestoreTable(two.value.0, varvals);
        if three.Ok? { BeforeThat(w, m, y, two.value.0, z, three.value.0); }
      }
    }
  }

  // Objects saved and read one after another.
  function SaveInfos(w: Writer, infos: seq<Info>): (Writer, seq<State>)
    decreases |infos|
  {
    if infos == [] then (w, [])
    else
      var (x, state) := Save(w, infos[0]);
      var (y, states) := SaveInfos(x, infos[1..]);
      (y, [state] + states)
  }

  function RestoreInfos(m: map<nat, Value>, states: seq<State>): Result<seq<Info>, KeyError>
    decreases |states|
  {
    if states == [] then Ok([])
    else match Restore(m, states[0])
      case Err(e) => Err(e)
      case Ok((m', info)) =>
        (match RestoreInfos(m', states[1..])
         case Err(e) => Err(e)
         case Ok(infos) => Ok([info] + infos))
  }

  // A `reset` of the reader in the middle of a stream is what the design rules out. What follows is
  // read if and only if no value in it was sent before the reset; and then it is read as it was saved.
  lemma {:induction false} ReaderResetLosesNumbers(w: Writer, infos: seq<Info>)
    requires Numbered(w)
    ensures var r := RestoreInfos(map[], SaveInfos(w, infos).1);
      && (r.Ok? <==> AllValues(infos) !! w.saveMap.Keys)
      && (r.Ok? ==> r.value == infos)
  {
    hide InfoValues, AllValues;
    RestoreInfosIff(w, map[], infos);
  }

  function AllValues(infos: seq<Info>): set<Value> {
    if infos == [] then {} else InfoValues(infos[0]) + AllValues(infos[1..])
  }

  lemma {:induction false} RestoreInfosIff(w: Writer, m: map<nat, Value>, infos: seq<Info>)
    requires Numbered(w)
    ensures var r := RestoreInfos(m, SaveInfos(w, infos).1);
      && (r.Ok? <==> AllFound(w, m, AllValues(infos)))
      && (r.Ok? ==> (r.value == infos <==> AllFoundRight(w, m, AllValues(infos))))
    decreases |infos|
  {
    hide Numbered, Save, Restore, InfoValues;
    if infos != [] {
      hide AllFound, AllFoundRight, AsBefore;
      var (x, state) := Save(w, infos[0]);
      RestoreIff(w, m, infos[0]);
      FoundTogether(w, m, InfoValues(infos[0]), AllValues(infos[1..]));
      var states := SaveInfos(x, infos[1..]).1;
      assert SaveInfos(w, infos).1 == [state] + states && ([state] + states)[1..] == states;
      var one := Restore(m, state);
      if one.Ok? {
        FoundAsBefore(w, m, x, one.value.0, AllValues(infos[1..]));
        RestoreInfosIff(x, one.value.0, infos[1..]);
        var rest := RestoreInfos(one.value.0, states);
        if rest.Ok? { SameParts(one.value.1, rest.value, infos); }
      }
    }
  }

  // ----- the program -----

  // The class-level state of one process: it may write one stream and read many.
  class SiggenRecipeInfo {
    var saveMap: map<Value, nat>
    var saveCount: nat
    var restoreMap: map<Pid, map<nat, Value>>
    var store: map<Value, Value>

    ghost predicate Valid()
      reads this
    {
      forall v :: v in store ==> store[v] == v
    }

    constructor ()
      ensures Valid() && Writer(saveMap, saveCount) == NEW_WRITER && restoreMap == map[]
    {
      saveMap, saveCount, restoreMap, store := map[], 1, map[], map[];
    }

    // `reset`
    method Reset()
      requires Valid()
      modifies this
      ensures Valid() && Writer(saveMap, saveCount) == NEW_WRITER && restoreMap == map[]
    {
      saveMap, saveCount, restoreMap := map[], 1, map[];
    }

    // One round of the loop in `_save`.
    method SaveEntry(dep: string, fs: Option<Value>) returns (t: Triple)
      modifies this`saveMap, this`saveCount
      ensures (Writer(saveMap, saveCount), t) == SaveOne(Writer(old(saveMap), old(saveCount)), (dep, fs))
    {
      if fs.None? {
        return Triple(dep, None, None);
      }
      if fs.value in saveMap {
        return Triple(dep, None, Some(saveMap[fs.value]));
      }
      saveMap := saveMap[fs.value := saveCount];
      t := Triple(dep, fs, Some(saveCount));
      saveCount := saveCount + 1;
    }

    // `_save`
    method SaveDict(deps: Option<Entries>) returns (ret: Option<seq<Triple>>)
      modifies this`saveMap, this`saveCount
      ensures (Writer(saveMap, saveCount), ret) == SaveTable(Writer(old(saveMap), old(saveCount)), deps)
    {
      if deps.None? {
        return None;
      }
      var out: seq<Triple> := [];
      ghost var all := SaveAll(Writer(saveMap, saveCount), deps.value);
      assert deps.value[0..] == deps.value && [] + all.1 == all.1;
      for i := 0 to |deps.value|
        invariant var (w, ts) := SaveAll(Writer(saveMap, saveCount), deps.value[i..]); (w, out + ts) == all
      {
        ghost var rest := deps.value[i..];
        assert rest[0] == deps.value[i] && rest[1..] == deps.value[i + 1..];
        var t := SaveEntry(deps.value[i].0, deps.value[i].1);
        ghost var ts := SaveAll(Writer(saveMap, saveCount), deps.value[i + 1..]).1;
        assert out + ([t] + ts) == (out + [t]) + ts;
        out := out + [t];
      }
      assert deps.value[|deps.value|..] == [] && out + [] == out;
      return Some(out);
    }

    // One round of the loop in `_restore`.
    method RestoreEntry(t: Triple, pid: Pid) returns (r: Result<Option<Value>, KeyError>)
      requires Valid() && pid in restoreMap
      modifies this`restoreMap, this`store
      ensures Valid() && pid in restoreMap
      ensures match RestoreOne(old(restoreMap)[pid], t)
        case Err(e) => r == Err(e) && restoreMap == old(restoreMap)
        case Ok((m, v)) => r == Ok(v) && restoreMap == old(restoreMap)[pid := m]
    {
      var numbers: map<nat, Value> := restoreMap[pid];
      assert restoreMap[pid := numbers] == restoreMap;
      if t.fs.None? && t.mapnum.None? {
        return Ok(None);
      }
      if t.fs.None? {
        if t.mapnum.value !in numbers {
          return Err(KeyError(t.mapnum.value));
        }
        return Ok(Some(numbers[t.mapnum.value]));
      }
      var fs := t.fs.value;
      if fs in store {
        fs := store[fs];
      } else {
        store := store[fs := fs];
      }
      if t.mapnum.Some? {
        restoreMap := restoreMap[pid := numbers[t.mapnum.value := fs]];
      }
      return Ok(Some(fs));
    }

    // `_restore`
    method RestoreDict(deps: Option<seq<Triple>>, pid: Pid) returns (r: Result<Option<Entries>, KeyError>)
      requires Valid()
      modifies this`restoreMap, this`store
      ensures Valid() && restoreMap - {pid} == old(restoreMap) - {pid}
      ensures var m := if pid in old(restoreMap) then old(restoreMap)[pid] else map[];
        match RestoreTable(m, deps)
        case Err(e) => r == Err(e)
        case Ok((m', table)) => r == Ok(table) && (if pid in restoreMap then restoreMap[pid] else map[]) == m'
    {
      if deps.None? {
        return Ok(None);
      }
      if pid !in restoreMap {
        restoreMap := restoreMap[pid := map[]];
      }
      ghost var start := restoreMap[pid];
      var ret: Entries := [];
      assert deps.value[0..] == deps.value;
      assert RestoreAll(start, deps.value).Ok? ==>
        [] + RestoreAll(start, deps.value).value.1 == RestoreAll(start, deps.value).value.1;
      for i := 0 to |deps.value|
        invariant Valid() && pid in restoreMap && restoreMap - {pid} == old(restoreMap) - {pid}
        invariant RestoreAll(start, deps.value) == match RestoreAll(restoreMap[pid], deps.value[i..])
          case Err(e) => Err(e)
          case Ok((m, entries)) => Ok((m, ret + entries))
      {
        var t := deps.value[i];
        ghost var rest := deps.value[i..];
        assert rest[0] == t && rest[1..] == deps.value[i + 1..];
        var fs := RestoreEntry(t, pid);
        if fs.Err? {
          return Err(fs.error);
        }
        ghost var later := RestoreAll(restoreMap[pid], deps.value[i + 1..]);
        if later.Ok? {
          assert ret + ([(t.dep, fs.value)] + later.value.1) == (ret + [(t.dep, fs.value)]) + later.value.1;
        }
        ret := ret + [(t.dep, fs.value)];
      }
      assert deps.value[|deps.value|..] == [] && ret + [] == ret;
      return Ok(Some(ret));
    }

    // `__getstate__`
    method GetState(info: Info) returns (state: State)
      modifies this`saveMap, this`saveCount
      ensures (Writer(saveMap, saveCount), state) == Save(Writer(old(saveMap), old(saveCount)), info)
    {
      var gendeps := SaveDict(info.gendeps);
      var taskdeps := SaveDict(info.taskdeps);
      var varvals := SaveDict(info.varvals);
      state := State(gendeps, taskdeps, varvals);
    }

    // `__setstate__`
    method SetState(state: State, pid: Pid) returns (r: Result<Info, KeyError>)
      requires Valid()
      modifies this`restoreMap, this`store
      ensures Valid() && restoreMap - {pid} == old(restoreMap) - {pid}
      ensures var m := if pid in old(restoreMap) then old(restoreMap)[pid] else map[];
        match Restore(m, state)
        case Err(e) => r == Err(e)
        case Ok((m', info)) => r == Ok(info) && (if pid in restoreMap then restoreMap[pid] else map[]) == m'
    {
      var gendeps := RestoreDict(state.gendeps, pid);
      if gendeps.Err? {
        return Err(gendeps.error);
      }
      var taskdeps := RestoreDict(state.taskdeps, pid);
      if taskdeps.Err? {
        return Err(taskdeps.error);
      }
      var varvals := RestoreDict(state.varvals, pid);
      if varvals.Err? {
        return Err(varvals.error);
      }
      return Ok(Info(gendeps.value, taskdeps.value, varvals.value));
    }
  }
}
