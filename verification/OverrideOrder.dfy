// The order in which BitBake prefers conditional overrides.
//
// A recorded override such as `b:c` is a sequence of segments. `DataSmart.getVarFlag`
// (data_smart.py:803-815) walks OVERRIDES again and again. When the walk meets the last
// segment of an active override it strips that segment; an override that is down to one
// segment and meets it wins for the moment, and a later win replaces an earlier one.
//
// This module works on segments and on a map from the override still to be consumed to
// its payload. It gives an independent account of the winner: every override has a
// trajectory, the times at which its segments are consumed, and the winner is the active
// override whose trajectory is lexicographically greatest.
module OverrideOrder {
  import opened Prelude

  type Override = seq<string>
  type Active<V> = map<Override, V>

  predicate EndsIn(k: Override, o: string) {
    k != [] && k[|k| - 1] == o
  }

  lemma {:induction false} StripAndPutBack<V>(a: Active<V>, o: string)
    ensures forall k: Override {:trigger k + [o]} :: k + [o] in a ==> (k + [o])[..|k|] == k && EndsIn(k + [o], o)
    ensures forall k :: k in a && EndsIn(k, o) ==> k[..|k| - 1] + [o] == k
  {}

  // One step of the walk over all active overrides, for the element `o` of OVERRIDES.

  function StepKeys<V>(a: Active<V>, o: string): (ks: set<Override>)
    ensures forall k :: k in ks <==> (k in a && !EndsIn(k, o)) || (k != [] && k + [o] in a)
  {
    StripAndPutBack(a, o);
    (set k | k in a && !EndsIn(k, o)) + (set k | k in a && EndsIn(k, o) && |k| > 1 :: k[..|k| - 1])
  }

  function Step<V>(a: Active<V>, o: string): Active<V> {
    map k | k in StepKeys(a, o) :: if k != [] && k + [o] in a then a[k + [o]] else a[k]
  }

  // Time: which walk, and which element of OVERRIDES in that walk.

  datatype Time = Time(pass: nat, index: nat)

  predicate Before(s: Time, t: Time) {
    s.pass < t.pass || (s.pass == t.pass && s.index < t.index)
  }

  function After(t: Time): Time {
    Time(t.pass, t.index + 1)
  }

  // The first position at or after `i` where `s` occurs, or |overrides|.
  function FirstFrom(overrides: seq<string>, i: nat, s: string): (j: nat)
    requires i <= |overrides|
    ensures i <= j <= |overrides|
    ensures j < |overrides| ==> overrides[j] == s
    ensures forall x :: i <= x < j ==> overrides[x] != s
    decreases |overrides| - i
  {
    if i == |overrides| || overrides[i] == s then i else FirstFrom(overrides, i + 1, s)
  }

  // When `s` is met for the first time at or after `t`.
  function Next(overrides: seq<string>, t: Time, s: string): (r: Time)
    requires s in overrides && t.index <= |overrides|
    ensures r.index < |overrides| && overrides[r.index] == s && !Before(r, t)
  {
    var j := FirstFrom(overrides, t.index, s);
    if j < |overrides| then Time(t.pass, j) else Time(t.pass + 1, FirstFrom(overrides, 0, s))
  }

  predicate Within(k: Override, overrides: seq<string>) {
    forall s :: s in k ==> s in overrides
  }

  // The times at which the segments of `k` are consumed, first segment first.
  // Consumption runs from the last segment to the first, so the times decrease.
  function Trajectory(overrides: seq<string>, k: Override, from: Time): (ts: seq<Time>)
    requires Within(k, overrides) && from.index <= |overrides|
    ensures |ts| == |k|
  {
    if k == [] then [] else
    var t := Next(overrides, from, k[|k| - 1]);
    Trajectory(overrides, k[..|k| - 1], After(t)) + [t]
  }

  ghost predicate Later(s: seq<Time>, t: seq<Time>) {
    exists i :: Splits(s, t, i)
  }

  ghost predicate Splits(s: seq<Time>, t: seq<Time>, i: int) {
    && 0 <= i < |s| && i <= |t|
    && (forall x :: 0 <= x < i ==> s[x] == t[x])
    && (i < |t| ==> Before(t[i], s[i]))
  }

  const START := Time(0, 0)

  // `k` is preferred to `l`.
  ghost predicate Beats(overrides: seq<string>, k: Override, l: Override)
    requires Within(k, overrides) && Within(l, overrides)
  {
    Later(Trajectory(overrides, k, START), Trajectory(overrides, l, START))
  }

  predicate AllWithin<V>(a: Active<V>, overrides: seq<string>) {
    forall k :: k in a ==> k != [] && Within(k, overrides)
  }

  ghost predicate IsWinner<V>(overrides: seq<string>, a: Active<V>, k: Override)
    requires AllWithin(a, overrides)
  {
    k in a && forall l :: l in a && l != k ==> Beats(overrides, k, l)
  }

  // ----- the winner is unique -----

  lemma BeatsIsAsymmetric(overrides: seq<string>, k: Override, l: Override)
    requires Within(k, overrides) && Within(l, overrides)
    requires Beats(overrides, k, l)
    ensures !Beats(overrides, l, k)
  {
    var s, t := Trajectory(overrides, k, START), Trajectory(overrides, l, START);
    var i :| Splits(s, t, i);
  }

  lemma WinnerIsUnique<V>(overrides: seq<string>, a: Active<V>, k: Override, l: Override)
    requires AllWithin(a, overrides)
    requires IsWinner(overrides, a, k) && IsWinner(overrides, a, l)
    ensures k == l
  {
    if k != l {
      BeatsIsAsymmetric(overrides, k, l);
    }
  }

  // For one-segment overrides the winner is the one whose first occurrence in OVERRIDES
  // is rightmost.
  lemma SingleSegmentOrder(overrides: seq<string>, s: string, t: string)
    requires s in overrides && t in overrides
    ensures Beats(overrides, [s], [t]) <==> FirstFrom(overrides, 0, t) < FirstFrom(overrides, 0, s)
  {
    var k, l := Trajectory(overrides, [s], START), Trajectory(overrides, [t], START);
    assert [s][..0] == [] && [t][..0] == [];
    assert k == [Time(0, FirstFrom(overrides, 0, s))];
    assert l == [Time(0, FirstFrom(overrides, 0, t))];
    if FirstFrom(overrides, 0, t) < FirstFrom(overrides, 0, s) {
      assert Splits(k, l, 0);
    }
  }

  // ----- what the walk does: residues -----

  // What is left of `k` at time `now` when the walk over `k` started at `from`.
  function Residue(overrides: seq<string>, k: Override, from: Time, now: Time): (r: Override)
    requires Within(k, overrides) && from.index <= |overrides|
    ensures r <= k
  {
    if k == [] then [] else
    var t := Next(overrides, from, k[|k| - 1]);
    if Before(t, now) then Residue(overrides, k[..|k| - 1], After(t), now) else k
  }

  // The walk at `now`: `origin` maps each override still active to the recorded override
  // it came from, `best` is the recorded override that won so far.
  ghost predicate WalkOk<V>(overrides: seq<string>, a: Active<V>, now: Time, origin: Active<Override>,
                            best: Option<Override>)
  {
    && AllWithin(a, overrides)
    && (forall k :: k in a ==>
          Residue(overrides, k, START, now) == [] || Residue(overrides, k, START, now) in origin)
    && (forall r :: r in origin ==> r != [] && Leads(overrides, a, now, origin[r], r))
    && (best.None? ==> forall k :: k in a ==> Residue(overrides, k, START, now) != [])
    && (best.Some? ==> Leads(overrides, a, now, best.value, []))
  }

  // Among the recorded overrides that are down to `r`, `k` is preferred.
  ghost predicate Leads<V>(overrides: seq<string>, a: Active<V>, now: Time, k: Override, r: Override)
    requires AllWithin(a, overrides)
  {
    && k in a && Residue(overrides, k, START, now) == r
    && forall l :: l in a && l != k && Residue(overrides, l, START, now) == r ==> Beats(overrides, k, l)
  }

  lemma {:induction false} ResidueStep(overrides: seq<string>, k: Override, from: Time, now: Time)
    requires Within(k, overrides) && NoRepeats(k) && from.index <= |overrides| && now.index < |overrides|
    ensures var r, r' := Residue(overrides, k, from, now), Residue(overrides, k, from, After(now));
      r' == if EndsIn(r, overrides[now.index]) && !Before(now, from) then r[..|r| - 1] else r
  {
    if k != [] {
      var o := overrides[now.index];
      var t := Next(overrides, from, k[|k| - 1]);
      if Before(t, now) {
        ResidueStep(overrides, k[..|k| - 1], After(t), now);
      } else {
        if k[|k| - 1] == o && !Before(now, from) {
          NextIsFirst(overrides, from, o, now);
        }
        if t == now {
          var k' := k[..|k| - 1];
          if k' != [] {
            assert !Before(Next(overrides, After(t), k'[|k'| - 1]), After(now));
          }
        }
      }
    }
  }

  lemma NextIsFirst(overrides: seq<string>, from: Time, s: string, now: Time)
    requires s in overrides && from.index <= |overrides| && now.index < |overrides|
    requires overrides[now.index] == s && !Before(now, from)
    ensures !Before(now, Next(overrides, from, s))
  {}

  lemma {:induction false} ResidueWrap(overrides: seq<string>, k: Override, from: Time, pass: nat)
    requires Within(k, overrides) && from.index <= |overrides|
    ensures Residue(overrides, k, from, Time(pass, |overrides|)) == Residue(overrides, k, from, Time(pass + 1, 0))
  {
    if k != [] {
      ResidueWrap(overrides, k[..|k| - 1], After(Next(overrides, from, k[|k| - 1])), pass);
    }
  }

  // ----- the residue splits the trajectory into a future and a past -----

  lemma {:induction false} NextFromLater(overrides: seq<string>, from: Time, now: Time, s: string)
    requires s in overrides && from.index <= |overrides| && now.index <= |overrides|
    requires !Before(now, from) && !Before(Next(overrides, from, s), now)
    ensures Next(overrides, from, s) == Next(overrides, now, s)
  {}

  lemma {:induction false} TrajectoryFromLater(overrides: seq<string>, k: Override, from: Time, now: Time)
    requires k != [] && Within(k, overrides) && from.index <= |overrides| && now.index <= |overrides|
    requires !Before(now, from) && !Before(Next(overrides, from, k[|k| - 1]), now)
    ensures Trajectory(overrides, k, from) == Trajectory(overrides, k, now)
  {
    NextFromLater(overrides, from, now, k[|k| - 1]);
  }

  lemma {:induction false} TrajectorySplit(overrides: seq<string>, k: Override, from: Time, now: Time)
    requires Within(k, overrides) && from.index <= |overrides| && now.index <= |overrides|
    requires !Before(now, from)
    ensures var r := Residue(overrides, k, from, now);
      && Within(r, overrides)
      && Trajectory(overrides, k, from)[..|r|] == Trajectory(overrides, r, now)
      && forall i :: |r| <= i < |k| ==> Before(Trajectory(overrides, k, from)[i], now)
  {
    if k != [] {
      var t := Next(overrides, from, k[|k| - 1]);
      if Before(t, now) {
        TrajectorySplit(overrides, k[..|k| - 1], After(t), now);
      } else {
        TrajectoryFromLater(overrides, k, from, now);
      }
    }
  }

  lemma {:induction false} SplitsAfter(s: seq<Time>, t: seq<Time>, common: seq<Time>, now: Time)
    requires |common| < |s| && s[..|common| + 1] == common + [now]
    requires |common| <= |t| && t[..|common|] == common
    requires |common| < |t| ==> Before(t[|common|], now)
    ensures Later(s, t)
  {
    var n := |common|;
    assert s[n] == s[..n + 1][n];
    forall x | 0 <= x < n ensures s[x] == t[x] {
      assert s[x] == s[..n + 1][x] && t[x] == t[..n][x];
    }
    assert Splits(s, t, n);
  }

  // An override that has just been stripped to `r` beats every override stripped to `r` before.
  lemma {:induction false} FreshBeatsStale(overrides: seq<string>, k: Override, l: Override, r: Override, now: Time)
    requires Within(k, overrides) && Within(l, overrides) && now.index < |overrides|
    requires NoRepeats(k)
    requires Residue(overrides, k, START, now) == r + [overrides[now.index]]
    requires Residue(overrides, l, START, now) == r
    ensures Beats(overrides, k, l)
  {
    hide Residue;
    var o := overrides[now.index];
    TrajectorySplit(overrides, k, START, now);
    TrajectorySplit(overrides, l, START, now);
    var s, t := Trajectory(overrides, k, START), Trajectory(overrides, l, START);
    NextIsFirst(overrides, now, o, now);
    assert (r + [o])[..|r|] == r;
    assert s[..|r| + 1] == Trajectory(overrides, r, After(now)) + [now];
    if r != [] {
      assert r[|r| - 1] == k[|r| - 1] && o == k[|r|];
      NextFromLater(overrides, now, After(now), r[|r| - 1]);
      assert Trajectory(overrides, r, After(now)) == Trajectory(overrides, r, now);
    }
    SplitsAfter(s, t, Trajectory(overrides, r, now), now);
  }

  // ----- the walk keeps its invariant -----

  function Identity<V>(a: Active<V>): Active<Override> {
    map k | k in a :: k
  }

  lemma {:induction false} WalkStarts<V>(overrides: seq<string>, a: Active<V>)
    requires AllWithin(a, overrides)
    ensures WalkOk(overrides, a, START, Identity(a), None)
  {
    forall k | k in a ensures Residue(overrides, k, START, START) == k {}
  }

  lemma {:induction false} WalkWraps<V>(overrides: seq<string>, a: Active<V>, pass: nat, origin: Active<Override>,
                                        best: Option<Override>)
    requires WalkOk(overrides, a, Time(pass, |overrides|), origin, best)
    ensures WalkOk(overrides, a, Time(pass + 1, 0), origin, best)
  {
    forall k | k in a
      ensures Residue(overrides, k, START, Time(pass, |overrides|)) == Residue(overrides, k, START, Time(pass + 1, 0))
    {
      ResidueWrap(overrides, k, START, pass);
    }
  }

  lemma {:induction false} LeadsOnceStripped<V>(overrides: seq<string>, a: Active<V>, now: Time, k: Override,
                                                r: Override)
    requires AllWithin(a, overrides) && now.index < |overrides|
    requires forall l :: l in a ==> NoRepeats(l)
    requires Leads(overrides, a, now, k, r + [overrides[now.index]])
    ensures Leads(overrides, a, After(now), k, r)
  {
    hide Residue, Beats;
    var o := overrides[now.index];
    ResidueStep(overrides, k, START, now);
    assert (r + [o])[..|r|] == r;
    forall l | l in a && l != k && Residue(overrides, l, START, After(now)) == r
      ensures Beats(overrides, k, l)
    {
      ResidueStep(overrides, l, START, now);
      var was := Residue(overrides, l, START, now);
      if was == r {
        FreshBeatsStale(overrides, k, l, r, now);
      } else {
        assert was == r + [o];
      }
    }
  }

  lemma {:induction false} LeadsUntouched<V>(overrides: seq<string>, a: Active<V>, now: Time, k: Override, r: Override,
                                             full: Override)
    requires AllWithin(a, overrides) && now.index < |overrides|
    requires full == r + [overrides[now.index]]
    requires !EndsIn(r, overrides[now.index]) && Leads(overrides, a, now, k, r)
    requires forall l :: l in a ==> Residue(overrides, l, START, now) != full
    requires forall l :: l in a ==> NoRepeats(l)
    ensures Leads(overrides, a, After(now), k, r)
  {
    hide Residue, Beats;
    ResidueStep(overrides, k, START, now);
    forall l | l in a && l != k && Residue(overrides, l, START, After(now)) == r
      ensures Beats(overrides, k, l)
    {
      ResidueStep(overrides, l, START, now);
      var was := Residue(overrides, l, START, now);
      assert was == r || was == full;
    }
  }

  // No recorded override is down to `full` unless the walk tracks `full`.
  lemma {:induction false} OnlyTracked<V>(overrides: seq<string>, a: Active<V>, now: Time, origin: Active<Override>,
                                          best: Option<Override>, full: Override)
    requires WalkOk(overrides, a, now, origin, best)
    requires full != [] && full !in origin
    ensures forall l :: l in a ==> Residue(overrides, l, START, now) != full
  {}

  lemma {:induction false} WalkStepOrigin<V>(overrides: seq<string>, a: Active<V>, now: Time, origin: Active<Override>,
                                             best: Option<Override>, r: Override)
    requires now.index < |overrides| && WalkOk(overrides, a, now, origin, best)
    requires forall k :: k in a ==> NoRepeats(k)
    requires r in Step(origin, overrides[now.index])
    ensures r != [] && Leads(overrides, a, After(now), Step(origin, overrides[now.index])[r], r)
  {
    var full := r + [overrides[now.index]];
    if r != [] && full in origin {
      LeadsOnceStripped(overrides, a, now, origin[full], r);
    } else {
      OnlyTracked(overrides, a, now, origin, best, full);
      LeadsUntouched(overrides, a, now, origin[r], r, full);
    }
  }

  lemma {:induction false} WalkStepBest<V>(overrides: seq<string>, a: Active<V>, now: Time, origin: Active<Override>,
                                           best: Option<Override>, k: Override)
    requires now.index < |overrides| && WalkOk(overrides, a, now, origin, best)
    requires forall l :: l in a ==> NoRepeats(l)
    requires var o := overrides[now.index]; Some(k) == if [o] in origin then Some(origin[[o]]) else best
    ensures Leads(overrides, a, After(now), k, [])
  {
    var full := [overrides[now.index]];
    assert [] + full == full;
    if full in origin {
      LeadsOnceStripped(overrides, a, now, k, []);
    } else {
      OnlyTracked(overrides, a, now, origin, best, full);
      LeadsUntouched(overrides, a, now, k, [], full);
    }
  }

  lemma {:induction false} WalkSteps<V>(overrides: seq<string>, a: Active<V>, now: Time, origin: Active<Override>,
                                        best: Option<Override>)
    requires now.index < |overrides| && WalkOk(overrides, a, now, origin, best)
    requires forall k :: k in a ==> NoRepeats(k)
    ensures var o := overrides[now.index];
      WalkOk(overrides, a, After(now), Step(origin, o), if [o] in origin then Some(origin[[o]]) else best)
  {
    var o := overrides[now.index];
    var best' := if [o] in origin then Some(origin[[o]]) else best;
    forall r | r in Step(origin, o)
      ensures r != [] && Leads(overrides, a, After(now), Step(origin, o)[r], r)
    {
      WalkStepOrigin(overrides, a, now, origin, best, r);
    }
    if best'.Some? {
      WalkStepBest(overrides, a, now, origin, best, best'.value);
    }
    forall k | k in a
      ensures Residue(overrides, k, START, After(now)) == []
        || Residue(overrides, k, START, After(now)) in Step(origin, o)
      ensures best'.None? ==> Residue(overrides, k, START, After(now)) != []
    {
      WalkStepKey(overrides, k, now, origin);
    }
  }

  lemma {:induction false} WalkStepKey(overrides: seq<string>, k: Override, now: Time, origin: Active<Override>)
    requires now.index < |overrides| && Within(k, overrides) && NoRepeats(k)
    requires Residue(overrides, k, START, now) == [] || Residue(overrides, k, START, now) in origin
    ensures var o, r := overrides[now.index], Residue(overrides, k, START, After(now));
      if r == [] then Residue(overrides, k, START, now) == [] || [o] in origin else r in Step(origin, o)
  {
    ResidueStep(overrides, k, START, now);
    var o := overrides[now.index];
    var was := Residue(overrides, k, START, now);
    if EndsIn(was, o) {
      assert was == was[..|was| - 1] + [o];
    }
  }
}
