// The scan of OverrideScan picks the winner of OverrideOrder.
//
// This holds for clean overrides: no segment repeats, and no later segment is a prefix of an
// earlier one (data_smart.py:811 strips with str.replace, which would also cut into such a
// segment).
module OverrideChoice {
  import opened Prelude
  import opened Text
  import opened OverrideOrder
  import opened OverrideScan

  function Segments(cond: string): (k: Override)
    ensures k != []
  {
    Split(cond, ':')
  }

  predicate CleanSegments(k: Override) {
    && NoRepeats(k)
    && forall i, j :: 1 <= i < j < |k| ==> !(k[j] <= k[i])
  }

  predicate Clean(cond: string) {
    CleanSegments(Segments(cond))
  }

  predicate NoColons(segs: seq<string>) {
    forall s :: s in segs ==> ':' !in s
  }

  // ----- one string -----

  lemma {:induction false} EarlierSegment(k: Override, o: string)
    requires k != [] && NoColons(k) && ':' !in o
    requires Occurs(Join(k, ':'), ":" + o)
    ensures exists i :: 1 <= i < |k| && o <= k[i]
  {
    var s, pat := Join(k, ':'), ":" + o;
    var p :| 0 <= p <= |s| && pat <= s[p..];
    assert s[p..][0] == pat[0] == ':' && s[p] in s;
    assert forall q :: 0 < q < |pat| ==> pat[q] in o;
    forall r | p < r < p + |pat| ensures s[r] != ':' {
      assert s[p..][r - p] == pat[r - p];
    }
    if |k| > 1 {
      var x, last := Join(k[..|k| - 1], ':'), k[|k| - 1];
      assert s == x + ":" + last && ':' !in last;
      assert s[|x|] == ':' && forall q :: |x| < q < |s| ==> s[q] in last;
      hide Join;
      if p == |x| {
        LastSegmentStarts(x, last, o);
        assert o <= k[|k| - 1];
      } else if p + |pat| <= |x| {
        assert x[p..][..|pat|] == s[p..][..|pat|];
        EarlierSegment(k[..|k| - 1], o);
      }
    }
  }

  lemma {:induction false} LastSegmentStarts(x: string, last: string, o: string)
    requires ":" + o <= (x + ":" + last)[|x|..]
    ensures o <= last
  {
    assert (x + ":" + last)[|x|..] == ":" + last;
    assert (":" + o)[1..] == o && (":" + last)[1..] == last;
    forall q | 0 <= q < |o| ensures q < |last| && o[q] == last[q] {
      assert (":" + o)[q + 1] == (":" + last)[q + 1];
    }
  }

  lemma {:induction false} NoEarlierSegment(k: Override, o: string)
    requires k != [] && NoColons(k) && ':' !in o && CleanSegments(k + [o])
    ensures !Occurs(Join(k, ':'), ":" + o)
  {
    var whole := k + [o];
    assert forall i | 1 <= i < |k| :: whole[i] == k[i] && !(whole[|k|] <= whole[i]);
    if Occurs(Join(k, ':'), ":" + o) {
      EarlierSegment(k, o);
      assert false;
    }
  }

  lemma {:induction false} EndsWithIsEndsIn(cond: string, o: string)
    requires ':' !in o
    ensures EndsWith(cond, ":" + o) <==> EndsIn(Segments(cond), o) && |Segments(cond)| > 1
    ensures cond == o <==> Segments(cond) == [o]
    ensures EndsWith(cond, ":" + o) ==> cond == cond[..|cond| - |o| - 1] + [':'] + o
  {
    var k := Segments(cond);
    JoinSplit(cond, ':');
    if EndsWith(cond, ":" + o) {
      var x := cond[..|cond| - |o| - 1];
      assert cond == x + [':'] + o;
      SplitSnoc(x, ':', o);
    }
    if EndsIn(k, o) && |k| > 1 {
      assert cond == Join(k[..|k| - 1], ':') + [':'] + o;
    }
    assert Segments(o) == [o];
  }

  lemma {:induction false} StripIsDropLast(cond: string, o: string)
    requires ':' !in o && EndsWith(cond, ":" + o) && Clean(cond)
    ensures var k := Segments(cond); Segments(Replace(cond, ":" + o, "")) == k[..|k| - 1]
  {
    EndsWithIsEndsIn(cond, o);
    var k := Segments(cond);
    var x := cond[..|cond| - |o| - 1];
    SplitSnoc(x, ':', o);
    assert k == Split(x, ':') + [o];
    JoinSplit(x, ':');
    SplitPieces(x, ':');
    NoEarlierSegment(Split(x, ':'), o);
    assert x + (":" + o) == cond;
    StripsLastSegment(x, ":" + o);
    assert k[..|k| - 1] == Split(x, ':');
  }

  // ----- the dictionary as a map on segments -----

  ghost predicate Represents(vals: map<string, string>, a: Active<string>) {
    && (forall s :: s in vals ==> Segments(s) in a && a[Segments(s)] == vals[s])
    && (forall k :: k in a ==> Join(k, ':') in vals && Segments(Join(k, ':')) == k)
  }

  function ToSegments(vals: map<string, string>): (a: Active<string>)
    ensures Represents(vals, a)
  {
    assert forall s | s in vals :: Join(Segments(s), ':') == s by {
      forall s | s in vals ensures Join(Segments(s), ':') == s { JoinSplit(s, ':'); }
    }
    map k | k in (set s | s in vals :: Segments(s)) :: vals[Join(k, ':')]
  }

  function StepOne<V>(a: Active<V>, o: string, k: Override): Active<V>
    requires k in a
  {
    if !EndsIn(k, o) then a
    else if |k| == 1 then a - {k}
    else (a - {k})[k[..|k| - 1] := a[k]]
  }

  lemma {:induction false} RepresentsDel(vals: map<string, string>, a: Active<string>, s: string)
    requires Represents(vals, a)
    ensures Represents(vals - {s}, a - {Segments(s)})
  {
    SegmentsInjective(vals, s);
    forall k | k in a - {Segments(s)} ensures Join(k, ':') in vals - {s} {
      assert Segments(Join(k, ':')) == k;
    }
  }

  lemma {:induction false} RepresentsPut(vals: map<string, string>, a: Active<string>, t: string, v: string)
    requires Represents(vals, a)
    ensures Represents(vals[t := v], a[Segments(t) := v])
  {
    SegmentsInjective(vals, t);
    JoinSplit(t, ':');
  }

  lemma {:induction false} ScanKeyIsStepOne(p: Scan, a: Active<string>, o: string, s: string)
    requires Sound(p.active) && Represents(p.active.vals, a) && s in p.active.vals
    requires ':' !in o && Clean(s)
    ensures var k, r := Segments(s), ScanKey(p, o, s);
      && Represents(r.active.vals, StepOne(a, o, k))
      && r.winner == (if k == [o] then Some(a[k]) else p.winner)
      && (r.changed <==> p.changed || (EndsIn(k, o) && |k| > 1))
  {
    EndsWithIsEndsIn(s, o);
    RepresentsDel(p.active.vals, a, s);
    var k := Segments(s);
    if EndsWith(s, ":" + o) {
      StripIsDropLast(s, o);
      RepresentsPut(p.active.vals - {s}, a - {k}, Replace(s, ":" + o, ""), p.active.vals[s]);
    }
  }

  lemma {:induction false} SegmentsInjective(vals: map<string, string>, t: string)
    ensures forall s :: s in vals && Segments(s) == Segments(t) ==> s == t
  {
    forall s | s in vals && Segments(s) == Segments(t) ensures s == t {
      JoinSplit(s, ':');
      JoinSplit(t, ':');
    }
  }

  // ----- all keys, in any order: Step -----

  // Halfway through the keys of `a0`: `todo` is still to come.
  ghost predicate Halfway<V>(a0: Active<V>, a: Active<V>, o: string, todo: set<Override>) {
    && (forall k :: k in todo ==> k in a0 && (EndsIn(k, o) ==> k in a && a[k] == a0[k]))
    && (forall k :: k in a <==>
          if EndsIn(k, o) then k in a0 && k in todo
          else k in a0 || (k != [] && k + [o] in a0 && k + [o] !in todo))
    && (forall k :: k in a && !EndsIn(k, o) ==>
          a[k] == if k != [] && k + [o] in a0 && k + [o] !in todo then a0[k + [o]] else a0[k])
  }

  lemma {:induction false} HalfwayStarts<V>(a0: Active<V>, o: string)
    ensures Halfway(a0, a0, o, a0.Keys)
  {}

  lemma {:induction false} HalfwayEnds<V>(a0: Active<V>, a: Active<V>, o: string)
    requires Halfway(a0, a, o, {}) && forall k :: k in a0 ==> NoRepeats(k)
    ensures a == Step(a0, o)
  {
    forall k: Override {:trigger k + [o]} | k != [] && k + [o] in a0 ensures !EndsIn(k, o) {
      var l := k + [o];
      assert l[|k| - 1] == k[|k| - 1] && l[|k|] == o;
    }
    assert a.Keys == Step(a0, o).Keys;
  }

  lemma {:induction false} HalfwayGoesOn<V>(a0: Active<V>, a: Active<V>, o: string, todo: set<Override>, k: Override)
    requires Halfway(a0, a, o, todo) && k in todo && NoRepeats(k)
    ensures k in a && Halfway(a0, StepOne(a, o, k), o, todo - {k})
  {
    var a' := StepOne(a, o, k);
    if EndsIn(k, o) {
      assert k == k[..|k| - 1] + [o];
      assert !EndsIn(k[..|k| - 1], o);
      forall l: Override {:trigger l + [o]} | l != [] && l + [o] == k ensures l == k[..|k| - 1] {
        assert (l + [o])[..|l|] == l;
      }
    } else {
      assert forall l: Override {:trigger l + [o]} :: EndsIn(l + [o], o);
    }
  }

  // Some key gets its last segment stripped.
  ghost predicate Strips(keys: set<Override>, o: string) {
    exists k :: k in keys && EndsIn(k, o) && |k| > 1
  }

  lemma {:induction false} StripsRest(keys: set<Override>, o: string, k: Override)
    requires k in keys
    ensures Strips(keys, o) <==> Strips(keys - {k}, o) || (EndsIn(k, o) && |k| > 1)
  {
    if Strips(keys, o) {
      var l :| l in keys && EndsIn(l, o) && |l| > 1;
      assert l == k || l in keys - {k};
    }
  }

  // The scan stands at `p`, which represents `a`; the keys `todo` are still to come.
  ghost predicate Scanning(p: Scan, todo: seq<string>, a: Active<string>, keys: set<Override>) {
    && Sound(p.active) && Represents(p.active.vals, a)
    && NoRepeats(todo) && (forall s :: s in todo ==> s in p.active.vals && Clean(s))
    && keys == set s | s in todo :: Segments(s)
  }

  lemma {:induction false} ScanningGoesOn(p: Scan, o: string, todo: seq<string>, a: Active<string>, keys: set<Override>)
    requires ':' !in o && todo != [] && Scanning(p, todo, a, keys)
    ensures Segments(todo[0]) in keys && Segments(todo[0]) in a
    ensures Scanning(ScanKey(p, o, todo[0]), todo[1..], StepOne(a, o, Segments(todo[0])), keys - {Segments(todo[0])})
  {
    ScanKeyIsStepOne(p, a, o, todo[0]);
    RestOfKeys(todo);
  }

  lemma {:induction false} ScanKeysIsStep(p: Scan, o: string, todo: seq<string>, a0: Active<string>, a: Active<string>,
                                          keys: set<Override>)
    requires ':' !in o && Scanning(p, todo, a, keys) && Halfway(a0, a, o, keys)
    requires forall k :: k in a0 ==> NoRepeats(k)
    ensures var r := ScanKeys(p, o, todo);
      && Represents(r.active.vals, Step(a0, o))
      && r.winner == (if [o] in keys then Some(a0[[o]]) else p.winner)
      && (r.changed <==> p.changed || Strips(keys, o))
    decreases |todo|
  {
    if todo == [] {
      HalfwayEnds(a0, a, o);
    } else {
      var k := Segments(todo[0]);
      ScanKeyIsStepOne(p, a, o, todo[0]);
      ScanningGoesOn(p, o, todo, a, keys);
      HalfwayGoesOn(a0, a, o, keys, k);
      StripsRest(keys, o, k);
      ScanKeysIsStep(ScanKey(p, o, todo[0]), o, todo[1..], a0, StepOne(a, o, k), keys - {k});
    }
  }

  lemma {:induction false} RestOfKeys(todo: seq<string>)
    requires todo != [] && NoRepeats(todo)
    ensures (set s | s in todo[1..] :: Segments(s)) == (set s | s in todo :: Segments(s)) - {Segments(todo[0])}
    ensures Segments(todo[0]) in (set s | s in todo :: Segments(s))
    ensures forall s :: s in todo[1..] ==> s in todo && s != todo[0]
  {
    var k := Segments(todo[0]);
    assert todo == [todo[0]] + todo[1..];
    forall t | t in todo[1..] ensures Segments(t) != k {
      JoinSplit(t, ':');
      JoinSplit(todo[0], ':');
    }
    var rest, all := set s | s in todo[1..] :: Segments(s), set s | s in todo :: Segments(s);
    assert todo[0] in todo;
    forall x | x in all - {k} ensures x in rest {
      var s :| s in todo && Segments(s) == x;
      assert s in todo[1..];
    }
  }

  lemma {:induction false} ScanAllKeys(p: Scan, o: string, a: Active<string>)
    requires Sound(p.active) && Represents(p.active.vals, a)
    requires ':' !in o && forall k :: k in a ==> CleanSegments(k)
    ensures var r := ScanKeys(p, o, p.active.order);
      && Represents(r.active.vals, Step(a, o))
      && r.winner == (if [o] in a then Some(a[[o]]) else p.winner)
      && (r.changed <==> p.changed || Strips(a.Keys, o))
  {
    var keys := set s | s in p.active.order :: Segments(s);
    forall k | k in a ensures k in keys {
      assert Join(k, ':') in p.active.order;
    }
    assert keys == a.Keys;
    HalfwayStarts(a, o);
    ScanKeysIsStep(p, o, p.active.order, a, a, keys);
  }

  // ----- the walk of OverrideScan follows the walk of OverrideOrder -----

  function Payload(a0: Active<string>, origin: Active<Override>): Active<string>
    requires forall r :: r in origin ==> origin[r] in a0
  {
    map r | r in origin :: a0[origin[r]]
  }

  ghost predicate Follows(p: Scan, overrides: seq<string>, a0: Active<string>, now: Time, origin: Active<Override>,
                          best: Option<Override>) {
    && Sound(p.active)
    && WalkOk(overrides, a0, now, origin, best)
    && (forall k :: k in a0 ==> NoRepeats(k))
    && (forall r :: r in origin ==> CleanSegments(r))
    && Represents(p.active.vals, Payload(a0, origin))
    && p.winner == (if best.None? then None else Some(a0[best.value]))
  }

  // While nothing has been stripped, no override still active ends in an element walked over.
  ghost predicate Untouched(p: Scan, origin: Active<Override>, walked: seq<string>) {
    p.changed || forall r :: r in origin ==> r != [] && r[|r| - 1] !in walked
  }

  lemma {:induction false} ScanKeysFollows(p: Scan, overrides: seq<string>, a0: Active<string>, now: Time,
                                           origin: Active<Override>, best: Option<Override>)
    requires now.index < |overrides| && NoColons(overrides) && Follows(p, overrides, a0, now, origin, best)
    requires Untouched(p, origin, overrides[..now.index])
    ensures var o := overrides[now.index]; var r := ScanKeys(p, o, p.active.order);
      && Follows(r, overrides, a0, After(now), Step(origin, o), if [o] in origin then Some(origin[[o]]) else best)
      && Untouched(r, Step(origin, o), overrides[..now.index + 1])
  {
    hide WalkOk, CleanSegments, Untouched, ScanKeys, Step, Represents;
    var o := overrides[now.index];
    assert overrides[..now.index + 1] == overrides[..now.index] + [o];
    OriginsKnown(overrides, a0, now, origin, best);
    assert Payload(a0, origin).Keys == origin.Keys;
    ScanAllKeys(p, o, Payload(a0, origin));
    WalkSteps(overrides, a0, now, origin, best);
    PayloadSteps(a0, origin, o);
    CleanSteps(origin, o);
    StepUntouched(p, ScanKeys(p, o, p.active.order), origin, o, overrides[..now.index]);
  }

  lemma OriginsKnown(overrides: seq<string>, a0: Active<string>, now: Time, origin: Active<Override>,
                     best: Option<Override>)
    requires WalkOk(overrides, a0, now, origin, best)
    ensures forall r :: r in origin ==> origin[r] in a0
    ensures best.Some? ==> best.value in a0
  {}

  lemma {:induction false} PayloadSteps(a0: Active<string>, origin: Active<Override>, o: string)
    requires forall r :: r in origin ==> origin[r] in a0
    ensures forall r :: r in Step(origin, o) ==> Step(origin, o)[r] in a0
    ensures Step(Payload(a0, origin), o) == Payload(a0, Step(origin, o))
  {
    assert Payload(a0, origin).Keys == origin.Keys;
    assert Step(Payload(a0, origin), o).Keys == Step(origin, o).Keys;
  }

  lemma {:induction false} CleanSteps(origin: Active<Override>, o: string)
    requires forall r :: r in origin ==> CleanSegments(r)
    ensures forall r :: r in Step(origin, o) ==> CleanSegments(r)
  {
    forall r | r in Step(origin, o) ensures CleanSegments(r) {
      if r !in origin {
        var full := r + [o];
        assert full in origin && forall i :: 0 <= i < |r| ==> full[i] == r[i];
      }
    }
  }

  lemma {:induction false} StepUntouched(p: Scan, r: Scan, origin: Active<Override>, o: string, walked: seq<string>)
    requires Untouched(p, origin, walked)
    requires r.changed <==> p.changed || Strips(origin.Keys, o)
    ensures Untouched(r, Step(origin, o), walked + [o])
  {
    if !r.changed {
      forall k | k in Step(origin, o) ensures k != [] && k[|k| - 1] !in walked + [o] {
        assert k != [] && k + [o] in origin ==> EndsIn(k + [o], o);
      }
    }
  }

  lemma {:induction false} PassFollows(p: Scan, overrides: seq<string>, walked: seq<string>, rest: seq<string>,
                                       a0: Active<string>, pass: nat, origin: Active<Override>, best: Option<Override>)
    returns (origin': Active<Override>, best': Option<Override>)
    requires NoColons(overrides) && overrides == walked + rest
    requires Follows(p, overrides, a0, Time(pass, |walked|), origin, best)
    requires Untouched(p, origin, walked)
    ensures Follows(Pass(p, rest), overrides, a0, Time(pass + 1, 0), origin', best')
    ensures Untouched(Pass(p, rest), origin', overrides)
    decreases |rest|
  {
    if rest == [] {
      origin', best' := origin, best;
      WalkWraps(overrides, a0, pass, origin, best);
      assert walked == overrides;
    } else {
      var o := rest[0];
      assert walked == overrides[..|walked|] && walked + [o] == overrides[..|walked| + 1];
      assert o == overrides[|walked|] && overrides == (walked + [o]) + rest[1..];
      ScanKeysFollows(p, overrides, a0, Time(pass, |walked|), origin, best);
      origin', best' := PassFollows(ScanKeys(p, o, p.active.order), overrides, walked + [o], rest[1..], a0, pass,
                                    Step(origin, o), if [o] in origin then Some(origin[[o]]) else best);
    }
  }

  lemma {:induction false} FollowsUnmarked(p: Scan, overrides: seq<string>, a0: Active<string>, now: Time,
                                           origin: Active<Override>, best: Option<Override>)
    requires Follows(p, overrides, a0, now, origin, best)
    ensures Follows(Scan(p.active, p.winner, false), overrides, a0, now, origin, best)
  {}

  lemma {:induction false} WalkFollows(active: Dict, winner: Option<string>, overrides: seq<string>,
                                       a0: Active<string>, pass: nat, origin: Active<Override>, best: Option<Override>)
    requires NoColons(overrides) && Follows(Scan(active, winner, false), overrides, a0, Time(pass, 0), origin, best)
    ensures Walk(active, winner, overrides).None? <==> a0 == map[]
    ensures Walk(active, winner, overrides).Some? ==>
      exists k :: IsWinner(overrides, a0, k) && Walk(active, winner, overrides).value == a0[k]
    decreases Weight(active.order)
  {
    var r := Pass(Scan(active, winner, false), overrides);
    TrackedWithin(overrides, a0, Time(pass, 0), origin, best);
    var origin', best' := PassFollows(Scan(active, winner, false), overrides, [], overrides, a0, pass, origin, best);
    if r.changed {
      FollowsUnmarked(r, overrides, a0, Time(pass + 1, 0), origin', best');
      WalkFollows(r.active, r.winner, overrides, a0, pass + 1, origin', best');
    } else {
      NothingLeft(r, overrides, a0, Time(pass + 1, 0), origin', best');
    }
  }

  lemma {:induction false} NothingLeft(r: Scan, overrides: seq<string>, a0: Active<string>, now: Time,
                                       origin: Active<Override>, best: Option<Override>)
    requires WalkOk(overrides, a0, now, origin, best)
    requires !r.changed && Untouched(r, origin, overrides)
    ensures best.None? <==> a0 == map[]
    ensures best.Some? ==> IsWinner(overrides, a0, best.value)
  {
    TrackedWithin(overrides, a0, now, origin, best);
    assert origin == map[];
    assert forall k :: k in a0 ==> Residue(overrides, k, START, now) == [];
    assert a0 == map[] <==> a0.Keys == {};
  }

  lemma {:induction false} TrackedWithin(overrides: seq<string>, a0: Active<string>, now: Time,
                                         origin: Active<Override>, best: Option<Override>)
    requires WalkOk(overrides, a0, now, origin, best)
    ensures forall k :: k in origin ==> k != [] && k[|k| - 1] in overrides
  {
    forall k | k in origin ensures k != [] && k[|k| - 1] in overrides {
      assert k <= origin[k];
      assert k[|k| - 1] == origin[k][|k| - 1];
    }
  }

  // ----- the theorems -----

  predicate AllClean(records: seq<Record>) {
    forall r :: r in records ==> Clean(r.cond)
  }

  // The name recorded for an override does not depend on which entry is looked at.
  predicate Functional(records: seq<Record>) {
    forall r, q :: r in records && q in records && r.cond == q.cond ==> r.name == q.name
  }

  // The overrides that lie wholly in OVERRIDES, as segments.
  function Candidates(records: seq<Record>, overrides: seq<string>): Active<string> {
    ToSegments(Collect(EMPTY, records, overrides).vals)
  }

  lemma {:induction false} AppliesIsWithin(cond: string, overrides: seq<string>)
    requires NoColons(overrides)
    ensures Applies(cond, overrides) <==> Within(Segments(cond), overrides)
  {
    if ':' !in cond {
      assert Segments(cond) == [cond];
    }
  }

  lemma {:induction false} CollectKeeps(active: Dict, records: seq<Record>, overrides: seq<string>)
    requires Sound(active)
    ensures var vals := Collect(active, records, overrides).vals;
      forall c :: c in vals ==>
        if exists r :: r in records && r.cond == c && Applies(c, overrides)
        then exists r :: r in records && r.cond == c && Applies(c, overrides) && vals[c] == r.name
        else c in active.vals && vals[c] == active.vals[c]
    ensures forall c :: c in active.vals ==> c in Collect(active, records, overrides).vals
    ensures forall r :: r in records && Applies(r.cond, overrides) ==>
      r.cond in Collect(active, records, overrides).vals
    decreases |records|
  {
    if records != [] {
      var r := records[0];
      assert records == [r] + records[1..];
      CollectKeeps(if Applies(r.cond, overrides) then Put(active, r.cond, r.name) else active, records[1..], overrides);
    }
  }

  // `a` holds exactly the recorded overrides that lie wholly in OVERRIDES, each with a name
  // recorded for it.
  ghost predicate AreCandidates(records: seq<Record>, overrides: seq<string>, a: Active<string>) {
    && (forall r :: r in records && Within(Segments(r.cond), overrides) ==> Segments(r.cond) in a)
    && (forall k :: k in a ==> k != [] && Within(k, overrides) && HasRecord(records, k, a[k]))
  }

  ghost predicate HasRecord(records: seq<Record>, k: Override, name: string) {
    exists r :: r in records && Segments(r.cond) == k && r.name == name
  }

  ghost predicate SomeApplies(records: seq<Record>, overrides: seq<string>) {
    exists r :: r in records && Within(Segments(r.cond), overrides)
  }

  lemma {:induction false} CandidatesAre(records: seq<Record>, overrides: seq<string>)
    requires NoColons(overrides)
    ensures AreCandidates(records, overrides, Candidates(records, overrides))
  {
    var vals := Collect(EMPTY, records, overrides).vals;
    var a := ToSegments(vals);
    CollectKeeps(EMPTY, records, overrides);
    forall r | r in records && Within(Segments(r.cond), overrides) ensures Segments(r.cond) in a {
      AppliesIsWithin(r.cond, overrides);
    }
    forall k | k in a ensures k != [] && Within(k, overrides) && HasRecord(records, k, a[k]) {
      var c := Join(k, ':');
      assert c in vals && Segments(c) == k;
      AppliesIsWithin(c, overrides);
      var r :| r in records && r.cond == c && Applies(c, overrides) && vals[c] == r.name;
    }
  }

  lemma {:induction false} FollowsAtStart(records: seq<Record>, active: Dict, overrides: seq<string>, a: Active<string>)
    requires AllClean(records) && Sound(active)
    requires AreCandidates(records, overrides, a) && Represents(active.vals, a)
    ensures Follows(Scan(active, None, false), overrides, a, START, Identity(a), None)
  {
    hide Represents, WalkOk, AreCandidates, AllClean, CleanSegments;
    CandidatesAreClean(records, overrides, a);
    WalkStarts(overrides, a);
    assert Payload(a, Identity(a)) == a;
  }

  lemma {:induction false} CandidatesAreClean(records: seq<Record>, overrides: seq<string>, a: Active<string>)
    requires AllClean(records) && AreCandidates(records, overrides, a)
    ensures AllWithin(a, overrides) && forall k :: k in a ==> CleanSegments(k) && NoRepeats(k)
  {
    forall k | k in a ensures CleanSegments(k) {
      assert HasRecord(records, k, a[k]);
    }
  }

  lemma {:induction false} NoCandidates(records: seq<Record>, overrides: seq<string>, a: Active<string>)
    requires AreCandidates(records, overrides, a)
    ensures a == map[] <==> !SomeApplies(records, overrides)
  {
    forall k | k in a ensures SomeApplies(records, overrides) {
      var r :| r in records && Segments(r.cond) == k;
    }
  }

  lemma {:induction false} WalkPicksWinner(records: seq<Record>, active: Dict, overrides: seq<string>,
                                           a: Active<string>)
    requires NoColons(overrides) && AllClean(records) && Sound(active)
    requires AreCandidates(records, overrides, a) && Represents(active.vals, a)
    ensures Walk(active, None, overrides).Some? <==> SomeApplies(records, overrides)
    ensures Walk(active, None, overrides).Some? ==>
              exists k :: IsWinner(overrides, a, k) && Walk(active, None, overrides).value == a[k]
  {
    FollowsAtStart(records, active, overrides, a);
    WalkFollows(active, None, overrides, a, 0, Identity(a), None);
    NoCandidates(records, overrides, a);
  }

  // The program picks a variant exactly when some recorded override lies wholly in OVERRIDES,
  // and it picks the winner.
  lemma {:induction false} ChosenIsWinner(records: seq<Record>, overrides: seq<string>)
    requires NoColons(overrides) && AllClean(records)
    ensures Chosen(records, overrides).Some? <==> SomeApplies(records, overrides)
    ensures AreCandidates(records, overrides, Candidates(records, overrides))
    ensures Chosen(records, overrides).Some? ==>
              exists k :: IsWinner(overrides, Candidates(records, overrides), k)
                          && Chosen(records, overrides).value == Candidates(records, overrides)[k]
  {
    CandidatesAre(records, overrides);
    WalkPicksWinner(records, Collect(EMPTY, records, overrides), overrides, Candidates(records, overrides));
  }

  // The order in which the overrides were recorded does not matter.
  lemma {:induction false} OrderDoesNotMatter(records: seq<Record>, records': seq<Record>, overrides: seq<string>)
    requires NoColons(overrides) && AllClean(records) && Functional(records)
    requires forall r :: r in records <==> r in records'
    ensures Chosen(records, overrides) == Chosen(records', overrides)
  {
    ChosenIsWinner(records, overrides);
    ChosenIsWinner(records', overrides);
    var a, a' := Candidates(records, overrides), Candidates(records', overrides);
    SameCandidates(records, records', overrides, a, a');
    if Chosen(records, overrides).Some? {
      var k :| IsWinner(overrides, a, k) && Chosen(records, overrides).value == a[k];
      var l :| IsWinner(overrides, a', l) && Chosen(records', overrides).value == a'[l];
      WinnerIsUnique(overrides, a, k, l);
    }
  }

  lemma {:induction false} SameCandidates(records: seq<Record>, records': seq<Record>, overrides: seq<string>,
                                          a: Active<string>, a': Active<string>)
    requires Functional(records) && forall r :: r in records <==> r in records'
    requires AreCandidates(records, overrides, a) && AreCandidates(records', overrides, a')
    ensures a == a'
    ensures SomeApplies(records, overrides) <==> SomeApplies(records', overrides)
  {
    forall k | k in a || k in a' ensures k in a && k in a' && a[k] == a'[k] {
      assert HasRecord(if k in a then records else records', k, if k in a then a[k] else a'[k]);
      assert k in a && k in a';
      var r :| r in records && Segments(r.cond) == k && r.name == a[k];
      var q :| q in records' && Segments(q.cond) == k && q.name == a'[k];
      JoinSplit(r.cond, ':');
      JoinSplit(q.cond, ':');
    }
  }

  // `r` occurs last in OVERRIDES, counting first occurrences, among the records that apply.
  ghost predicate IsRightmost(records: seq<Record>, overrides: seq<string>, r: Record) {
    && r in records && r.cond in overrides
    && forall q :: q in records && q.cond in overrides ==>
         FirstFrom(overrides, 0, q.cond) <= FirstFrom(overrides, 0, r.cond)
  }

  lemma {:induction false} WinnerIsRightmost(records: seq<Record>, overrides: seq<string>, a: Active<string>,
                                             k: Override)
    requires forall r :: r in records ==> ':' !in r.cond
    requires AreCandidates(records, overrides, a) && IsWinner(overrides, a, k)
    ensures exists r :: IsRightmost(records, overrides, r) && r.name == a[k]
  {
    forall r | r in records ensures Segments(r.cond) == [r.cond] {}
    var r :| r in records && Segments(r.cond) == k && r.name == a[k];
    assert r.cond in [r.cond];
    forall q | q in records && q.cond in overrides
      ensures FirstFrom(overrides, 0, q.cond) <= FirstFrom(overrides, 0, r.cond)
    {
      if q.cond != r.cond {
        assert [q.cond][0] != [r.cond][0];
        assert [q.cond] in a;
        SingleSegmentOrder(overrides, r.cond, q.cond);
      }
    }
    assert IsRightmost(records, overrides, r);
  }

  lemma {:induction false} RightmostWins(records: seq<Record>, overrides: seq<string>)
    requires NoColons(overrides) && forall r :: r in records ==> ':' !in r.cond
    requires Chosen(records, overrides).Some?
    ensures exists r :: IsRightmost(records, overrides, r) && Chosen(records, overrides) == Some(r.name)
  {
    forall r | r in records ensures Clean(r.cond) {
      assert Segments(r.cond) == [r.cond];
    }
    ChosenIsWinner(records, overrides);
    var a := Candidates(records, overrides);
    var k :| IsWinner(overrides, a, k) && Chosen(records, overrides).value == a[k];
    WinnerIsRightmost(records, overrides, a, k);
  }

  // Without cleanliness the first statement fails: the override `a:ox:o` lies wholly in
  // OVERRIDES, but stripping `:o` also cuts into `:ox`, and nothing is ever chosen.
  lemma {:induction false} PrefixSegmentIsLost()
    ensures var records, overrides := [Record("V:a:ox:o", "a:ox:o")], ["a", "ox", "o"];
      SomeApplies(records, overrides) && Chosen(records, overrides) == None
  {
    hide Walk, Collect;
    var r := Record("V:a:ox:o", "a:ox:o");
    CutSegments();
    assert r in [r] && Within(Segments(r.cond), ["a", "ox", "o"]);
    assert r.cond[1] == ':';
    assert Applies(r.cond, ["a", "ox", "o"]);
    CollectOne(r, ["a", "ox", "o"]);
    CutWalk(r.name);
  }

  lemma {:induction false} CollectOne(r: Record, overrides: seq<string>)
    requires Applies(r.cond, overrides)
    ensures Collect(EMPTY, [r], overrides) == Dict([r.cond], map[r.cond := r.name])
  {
    assert [r][1..] == [];
  }

  lemma {:induction false} CutSegments()
    ensures Segments("a:ox:o") == ["a", "ox", "o"]
  {
    var k := ["a", "ox", "o"];
    assert k[..2] == ["a", "ox"] && k[..2][..1] == ["a"];
    assert "a:ox:o" == Join(k, ':');
    SplitJoin(k, ':');
  }

  lemma {:induction false} CutWalk(name: string)
    ensures Walk(Dict(["a:ox:o"], map["a:ox:o" := name]), None, ["a", "ox", "o"]) == None
  {
    CutReplace();
    OneKeyPass("a:ox:o", name, "a", "ox", "o", "ax");
    OneKeyPass("ax", name, "a", "ox", "o", "ax");
  }

  lemma {:induction false} CutReplace()
    ensures Replace("a:ox:o", ":o", "") == "ax"
  {
    var c := "a:ox:o";
    assert c[1..] == ":ox:o" && c[1..][2..] == "x:o" && c[1..][2..][1..] == ":o" && c[1..][2..][1..][2..] == "";
  }

  // A pass over three elements of which only the last one strips the only key.
  lemma {:induction false} OneKeyPass(c: string, name: string, o1: string, o2: string, o3: string, cut: string)
    requires c !in [o1, o2, o3] && !EndsWith(c, ":" + o1) && !EndsWith(c, ":" + o2)
    requires if EndsWith(c, ":" + o3) then Replace(c, ":" + o3, "") == cut else cut == c
    ensures Pass(Scan(Dict([c], map[c := name]), None, false), [o1, o2, o3])
         == Scan(Dict([cut], map[cut := name]), None, EndsWith(c, ":" + o3))
  {
    var p := Scan(Dict([c], map[c := name]), None, false);
    var keys := [c];
    assert keys[1..] == [] && keys[0] == c;
    assert forall o :: ScanKeys(p, o, keys) == ScanKey(p, o, c);
    assert ScanKey(p, o1, c) == p && ScanKey(p, o2, c) == p;
    var q := Scan(Dict([cut], map[cut := name]), None, EndsWith(c, ":" + o3));
    assert ScanKey(p, o3, c) == q by {
      assert p.active.vals - {c} == map[];
    }
    var os := [o1, o2, o3];
    assert os[1..] == [o2, o3] && os[1..][1..] == [o3] && os[1..][1..][1..] == [];
    assert Pass(p, os) == Pass(p, [o2, o3]);
    assert Pass(p, [o2, o3]) == Pass(p, [o3]);
    assert Pass(p, [o3]) == Pass(q, []);
  }
}
