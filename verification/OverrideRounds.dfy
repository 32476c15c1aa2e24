// The value of OVERRIDES as a fixed point (data_smart.py:488-510), and what a read can see.
module OverrideRounds {
  import opened Prelude
  import opened Text
  import opened OverrideScan
  import opened Expansion

  function SplitOverrides(value: Option<string>): seq<string> {
    Split(OrEmpty(value), ':')
  }

  // Round 0 is the empty list; round k + 1 is the value of OVERRIDES under round k.
  function Round(st: Store, n: nat, k: nat): Result<seq<string>, Problem> {
    if k == 0 then Ok([])
    else match Round(st, n, k - 1)
      case Err(e) => Err(e)
      case Ok(o) => (match Eval(st, o, n, "OVERRIDES") case Err(e) => Err(e) case Ok(e) => Ok(SplitOverrides(e.value)))
  }

  ghost predicate IsRound(st: Store, k: nat, o: seq<string>) {
    exists n: nat :: Round(st, n, k) == Ok(o)
  }

  // `o` is what the program settles on: two equal successive rounds within five iterations.
  ghost predicate Settles(st: Store, o: seq<string>) {
    exists k: nat :: SettlesAt(st, o, k)
  }

  ghost predicate SettlesAt(st: Store, o: seq<string>, k: nat) {
    1 <= k <= 5 && IsRound(st, k, o) && IsRound(st, k + 1, o)
  }

  lemma {:induction false} RoundMono(st: Store, n: nat, m: nat, k: nat)
    requires n <= m && Round(st, n, k).Ok?
    ensures Round(st, m, k) == Round(st, n, k)
  {
    if k > 0 {
      RoundMono(st, n, m, k - 1);
      EvalMono(st, Round(st, n, k - 1).value, n, m, "OVERRIDES");
    }
  }

  lemma {:induction false} FirstRound(st: Store)
    ensures IsRound(st, 0, [])
  {
    assert Round(st, 0, 0) == Ok([]);
  }

  lemma {:induction false} NextRound(st: Store, k: nat, o: seq<string>, e: Entry)
    requires IsRound(st, k, o) && Reads(st, o, "OVERRIDES", e)
    ensures IsRound(st, k + 1, SplitOverrides(e.value))
  {
    hide Round, Eval;
    var n: nat :| Round(st, n, k) == Ok(o);
    var m: nat :| Eval(st, o, m, "OVERRIDES") == Ok(e);
    RoundMono(st, n, n + m, k);
    EvalMono(st, o, m, n + m, "OVERRIDES");
    RoundOnce(st, n + m, k, o, e);
  }

  lemma {:induction false} RoundOnce(st: Store, n: nat, k: nat, o: seq<string>, e: Entry)
    requires Round(st, n, k) == Ok(o) && Eval(st, o, n, "OVERRIDES") == Ok(e)
    ensures Round(st, n, k + 1) == Ok(SplitOverrides(e.value))
  {
    hide Eval;
    assert Round(st, n, k) != Err(TooDeep);
  }

  lemma {:induction false} RoundIsFunctional(st: Store, k: nat, o: seq<string>, p: seq<string>)
    requires IsRound(st, k, o) && IsRound(st, k, p)
    ensures o == p
  {
    hide Round;
    var n: nat :| Round(st, n, k) == Ok(o);
    var m: nat :| Round(st, m, k) == Ok(p);
    RoundMono(st, n, n + m, k);
    RoundMono(st, m, n + m, k);
  }

  // Each round after the first is read under the round before.
  lemma {:induction false} RoundReads(st: Store, k: nat, o: seq<string>, p: seq<string>)
    requires IsRound(st, k, o) && IsRound(st, k + 1, p)
    ensures exists e :: Reads(st, o, "OVERRIDES", e) && SplitOverrides(e.value) == p
  {
    var n: nat :| Round(st, n, k + 1) == Ok(p);
    var q := Round(st, n, k).value;
    assert IsRound(st, k, q);
    RoundIsFunctional(st, k, o, q);
    assert Reads(st, o, "OVERRIDES", Eval(st, o, n, "OVERRIDES").value);
  }

  // Once two successive rounds are equal, all later ones are.
  lemma {:induction false} RoundsStay(st: Store, k: nat, o: seq<string>, later: nat)
    requires IsRound(st, k, o) && IsRound(st, k + 1, o) && k <= later
    ensures IsRound(st, later, o)
    decreases later
  {
    hide IsRound, Reads, SplitOverrides;
    if k < later {
      RoundsStay(st, k, o, later - 1);
      RoundReads(st, k, o, o);
      var e :| Reads(st, o, "OVERRIDES", e) && SplitOverrides(e.value) == o;
      NextRound(st, later - 1, o, e);
    }
  }

  // The program can settle on one list only, and that list is a fixed point.
  lemma {:induction false} SettlesIsFunctional(st: Store, o: seq<string>, p: seq<string>)
    requires Settles(st, o) && Settles(st, p)
    ensures o == p
  {
    var k: nat :| SettlesAt(st, o, k);
    var l: nat :| SettlesAt(st, p, l);
    SettleTogether(st, k, o, l, p);
  }

  lemma {:induction false} SettleTogether(st: Store, k: nat, o: seq<string>, l: nat, p: seq<string>)
    requires IsRound(st, k, o) && IsRound(st, k + 1, o) && IsRound(st, l, p) && IsRound(st, l + 1, p)
    ensures o == p
  {
    var later := if k < l then l else k;
    RoundsStay(st, k, o, later);
    RoundsStay(st, l, p, later);
    RoundIsFunctional(st, later, o, p);
  }

  lemma {:induction false} SettledIsFixedPoint(st: Store, o: seq<string>)
    requires Settles(st, o)
    ensures exists e :: Reads(st, o, "OVERRIDES", e) && SplitOverrides(e.value) == o
  {
    var k: nat :| SettlesAt(st, o, k);
    RoundReads(st, k, o, o);
  }

  // Five iterations: OVERRIDES settles if and only if one of the first five rounds equals the next one.
  lemma {:induction false} SettlesWithinFive(st: Store, o: seq<string>)
    ensures Settles(st, o) <==>
      || (IsRound(st, 1, o) && IsRound(st, 2, o)) || (IsRound(st, 2, o) && IsRound(st, 3, o))
      || (IsRound(st, 3, o) && IsRound(st, 4, o)) || (IsRound(st, 4, o) && IsRound(st, 5, o))
      || (IsRound(st, 5, o) && IsRound(st, 6, o))
  {
    hide IsRound;
    if Settles(st, o) {
      var k: nat :| SettlesAt(st, o, k);
      assert k == 1 || k == 2 || k == 3 || k == 4 || k == 5;
    }
    assert IsRound(st, 1, o) && IsRound(st, 2, o) ==> SettlesAt(st, o, 1);
    assert IsRound(st, 2, o) && IsRound(st, 3, o) ==> SettlesAt(st, o, 2);
    assert IsRound(st, 3, o) && IsRound(st, 4, o) ==> SettlesAt(st, o, 3);
    assert IsRound(st, 4, o) && IsRound(st, 5, o) ==> SettlesAt(st, o, 4);
    assert IsRound(st, 5, o) && IsRound(st, 6, o) ==> SettlesAt(st, o, 5);
  }

  // ----- the variables that a read looks at -----

  function EvalTouches(st: Store, overrides: seq<string>, n: nat, v: string): set<string>
    decreases n, 0, 0
  {
    if n == 0 then {v}
    else
      var chosen := Chosen(RecordsOf(st, v), overrides);
      var variant := EvalVariant(st, overrides, n - 1, chosen);
      {v} + (if chosen.Some? then EvalTouches(st, overrides, n - 1, chosen.value) else {})
          + (if variant.Ok? then FromTouches(st, overrides, n - 1, v, variant.value) else {})
  }

  function FromTouches(st: Store, overrides: seq<string>, n: nat, v: string, variant: Entry): set<string>
    decreases n, 4, 0
  {
    var raw := RawFrom(FlagsOf(st, v), variant.raw, overrides);
    if OrEmpty(raw) == "" then {}
    else
      ExpandTouches(st, overrides, n, v, raw.value)
      + RemovesTouch(st, overrides, n, variant.removes + ActiveTexts(FlagsOf(st, v).removes, overrides))
  }

  function RemovesTouch(st: Store, overrides: seq<string>, n: nat, removes: set<string>): set<string>
    decreases n, 3, 0
  {
    set r, x | r in removes && x in ExpandTouches(st, overrides, n, "", r) :: x
  }

  function ExpandTouches(st: Store, overrides: seq<string>, n: nat, name: string, s: string): set<string>
    decreases n, 2, 0
  {
    if !HasRef(s) || n == 0 then {}
    else
      var t := Sub(st, overrides, n - 1, name, s);
      SubTouches(st, overrides, n - 1, name, s)
      + (if t.Ok? && t.value.0 != s then ExpandTouches(st, overrides, n - 1, name, t.value.0) else {})
  }

  function SubTouches(st: Store, overrides: seq<string>, n: nat, name: string, s: string): set<string>
    decreases n, 1, |s|
  {
    if s == "" then {}
    else match RefAt(s)
      case None => SubTouches(st, overrides, n, name, s[1..])
      case Some(key) => EvalTouches(st, overrides, n, key) + SubTouches(st, overrides, n, name, s[|key| + 3..])
  }

  predicate Agree(st: Store, st': Store, names: set<string>) {
    forall v :: v in names ==> FlagsOf(st, v) == FlagsOf(st', v) && RecordsOf(st, v) == RecordsOf(st', v)
  }

  // A read depends only on the variables that it looks at.
  lemma {:induction false} EvalFrame(st: Store, st': Store, overrides: seq<string>, n: nat, v: string)
    requires Agree(st, st', EvalTouches(st, overrides, n, v))
    ensures Eval(st', overrides, n, v) == Eval(st, overrides, n, v)
    decreases n, 0, 0
  {
    if n > 0 {
      var chosen := Chosen(RecordsOf(st, v), overrides);
      assert v in EvalTouches(st, overrides, n, v);
      if chosen.Some? {
        EvalFrame(st, st', overrides, n - 1, chosen.value);
      }
      var variant := EvalVariant(st, overrides, n - 1, chosen);
      if variant.Ok? {
        FromFrame(st, st', overrides, n - 1, v, variant.value);
      }
    }
  }

  lemma {:induction false} FromFrame(st: Store, st': Store, overrides: seq<string>, n: nat, v: string, variant: Entry)
    requires Agree(st, st', {v} + FromTouches(st, overrides, n, v, variant))
    ensures EvalFrom(st', overrides, n, v, variant) == EvalFrom(st, overrides, n, v, variant)
    decreases n, 4, 0
  {
    assert FlagsOf(st, v) == FlagsOf(st', v);
    var raw := RawFrom(FlagsOf(st, v), variant.raw, overrides);
    if OrEmpty(raw) != "" {
      ExpandFrame(st, st', overrides, n, v, raw.value);
      RemovesFrame(st, st', overrides, n, variant.removes + ActiveTexts(FlagsOf(st, v).removes, overrides));
    } else {
      assert raw.Some? ==> Expand(st, overrides, n, v, "") == Expand(st', overrides, n, v, "") == Ok(("", {}));
    }
  }

  lemma {:induction false} RemovesFrame(st: Store, st': Store, overrides: seq<string>, n: nat, removes: set<string>)
    requires Agree(st, st', RemovesTouch(st, overrides, n, removes))
    ensures RemoveWords(st', overrides, n, removes) == RemoveWords(st, overrides, n, removes)
    decreases n, 3, 0
  {
    forall r | r in removes ensures Expand(st', overrides, n, "", r) == Expand(st, overrides, n, "", r) {
      assert ExpandTouches(st, overrides, n, "", r) <= RemovesTouch(st, overrides, n, removes);
      ExpandFrame(st, st', overrides, n, "", r);
    }
    var here, there := RemoveWords(st, overrides, n, removes), RemoveWords(st', overrides, n, removes);
    assert here.Ok? <==> there.Ok?;
    assert here.Ok? ==> here.value == there.value;
  }

  lemma {:induction false} ExpandFrame(st: Store, st': Store, overrides: seq<string>, n: nat, name: string, s: string)
    requires Agree(st, st', ExpandTouches(st, overrides, n, name, s))
    ensures Expand(st', overrides, n, name, s) == Expand(st, overrides, n, name, s)
    decreases n, 2, 0
  {
    hide Eval, EvalTouches, FlagsOf, RecordsOf;
    if HasRef(s) && n > 0 {
      SubFrame(st, st', overrides, n - 1, name, s);
      var t := Sub(st, overrides, n - 1, name, s);
      if t.Ok? && t.value.0 != s {
        ExpandFrame(st, st', overrides, n - 1, name, t.value.0);
      }
    }
  }

  lemma {:induction false} SubFrame(st: Store, st': Store, overrides: seq<string>, n: nat, name: string, s: string)
    requires Agree(st, st', SubTouches(st, overrides, n, name, s))
    ensures Sub(st', overrides, n, name, s) == Sub(st, overrides, n, name, s)
    decreases n, 1, |s|
  {
    if s != "" {
      match RefAt(s)
      case None => SubFrame(st, st', overrides, n, name, s[1..]);
      case Some(key) =>
        EvalFrame(st, st', overrides, n, key);
        SubFrame(st, st', overrides, n, name, s[|key| + 3..]);
    }
  }

  // The variables that settling on the overrides looks at, in the first `k` rounds.
  function RoundsTouch(st: Store, n: nat, k: nat): set<string> {
    if k == 0 then {}
    else
      RoundsTouch(st, n, k - 1)
      + (match Round(st, n, k - 1) case Err(_) => {} case Ok(o) => EvalTouches(st, o, n, "OVERRIDES"))
  }

  lemma RoundsTouchMore(st: Store, n: nat, k: nat)
    ensures RoundsTouch(st, n, k) <= RoundsTouch(st, n, k + 1)
  {}

  lemma {:induction false} RoundFrame(st: Store, st': Store, n: nat, k: nat)
    requires Agree(st, st', RoundsTouch(st, n, k))
    ensures Round(st', n, k) == Round(st, n, k)
  {
    if k > 0 {
      RoundFrame(st, st', n, k - 1);
      if Round(st, n, k - 1).Ok? {
        EvalFrame(st, st', Round(st, n, k - 1).value, n, "OVERRIDES");
      }
    }
  }

  // Some run of the rounds settles on `o` and looks at variables in `names` only.
  ghost predicate SettlesWithin(st: Store, o: seq<string>, names: set<string>) {
    exists n: nat, k: nat :: RunSettles(st, o, n, k) && RoundsTouch(st, n, k + 1) <= names
  }

  ghost predicate RunSettles(st: Store, o: seq<string>, n: nat, k: nat) {
    1 <= k <= 5 && Round(st, n, k) == Ok(o) && Round(st, n, k + 1) == Ok(o)
  }

  // A change to variables that settling does not look at leaves the settled overrides as they are.
  lemma {:induction false} SettlesFrame(st: Store, st': Store, o: seq<string>, names: set<string>)
    requires SettlesWithin(st, o, names) && Agree(st, st', names)
    ensures Settles(st', o)
  {
    hide Round, RoundsTouch;
    var n: nat, k: nat :| RunSettles(st, o, n, k) && RoundsTouch(st, n, k + 1) <= names;
    RoundsTouchMore(st, n, k);
    RoundFrame(st, st', n, k + 1);
    RoundFrame(st, st', n, k);
    assert SettlesAt(st', o, k);
  }

  // ----- after such a change the same variables are looked at -----

  lemma {:induction false} EvalTouchesSame(st: Store, st': Store, overrides: seq<string>, n: nat, v: string)
    requires Agree(st, st', EvalTouches(st, overrides, n, v))
    ensures EvalTouches(st', overrides, n, v) == EvalTouches(st, overrides, n, v)
    decreases n, 0, 0
  {
    hide Eval, EvalFrom, FromTouches, Chosen;
    if n > 0 {
      var chosen := Chosen(RecordsOf(st, v), overrides);
      assert v in EvalTouches(st, overrides, n, v);
      if chosen.Some? {
        EvalFrame(st, st', overrides, n - 1, chosen.value);
        EvalTouchesSame(st, st', overrides, n - 1, chosen.value);
      }
      var variant := EvalVariant(st, overrides, n - 1, chosen);
      if variant.Ok? {
        FromTouchesSame(st, st', overrides, n - 1, v, variant.value);
      }
    }
  }

  lemma {:induction false} FromTouchesSame(st: Store, st': Store, overrides: seq<string>, n: nat, v: string,
                                           variant: Entry)
    requires Agree(st, st', {v} + FromTouches(st, overrides, n, v, variant))
    ensures FromTouches(st', overrides, n, v, variant) == FromTouches(st, overrides, n, v, variant)
    decreases n, 4, 0
  {
    hide ExpandTouches, RemovesTouch, RawFrom, ActiveTexts;
    assert FlagsOf(st, v) == FlagsOf(st', v);
    var raw := RawFrom(FlagsOf(st, v), variant.raw, overrides);
    if OrEmpty(raw) != "" {
      ExpandTouchesSame(st, st', overrides, n, v, raw.value);
      RemovesTouchSame(st, st', overrides, n, variant.removes + ActiveTexts(FlagsOf(st, v).removes, overrides));
    }
  }

  lemma {:induction false} RemovesTouchSame(st: Store, st': Store, overrides: seq<string>, n: nat, removes: set<string>)
    requires Agree(st, st', RemovesTouch(st, overrides, n, removes))
    ensures RemovesTouch(st', overrides, n, removes) == RemovesTouch(st, overrides, n, removes)
    decreases n, 3, 0
  {
    hide ExpandTouches;
    forall r | r in removes ensures ExpandTouches(st', overrides, n, "", r) == ExpandTouches(st, overrides, n, "", r) {
      assert ExpandTouches(st, overrides, n, "", r) <= RemovesTouch(st, overrides, n, removes);
      ExpandTouchesSame(st, st', overrides, n, "", r);
    }
  }

  lemma {:induction false} ExpandTouchesSame(st: Store, st': Store, overrides: seq<string>, n: nat, name: string,
                                             s: string)
    requires Agree(st, st', ExpandTouches(st, overrides, n, name, s))
    ensures ExpandTouches(st', overrides, n, name, s) == ExpandTouches(st, overrides, n, name, s)
    decreases n, 2, 0
  {
    hide Sub, SubTouches, FlagsOf, RecordsOf;
    if HasRef(s) && n > 0 {
      SubFrame(st, st', overrides, n - 1, name, s);
      SubTouchesSame(st, st', overrides, n - 1, name, s);
      var t := Sub(st, overrides, n - 1, name, s);
      if t.Ok? && t.value.0 != s {
        ExpandTouchesSame(st, st', overrides, n - 1, name, t.value.0);
      }
    }
  }

  lemma {:induction false} SubTouchesSame(st: Store, st': Store, overrides: seq<string>, n: nat, name: string,
                                          s: string)
    requires Agree(st, st', SubTouches(st, overrides, n, name, s))
    ensures SubTouches(st', overrides, n, name, s) == SubTouches(st, overrides, n, name, s)
    decreases n, 1, |s|
  {
    hide EvalTouches, FlagsOf, RecordsOf;
    if s != "" {
      match RefAt(s)
      case None => SubTouchesSame(st, st', overrides, n, name, s[1..]);
      case Some(key) =>
        EvalTouchesSame(st, st', overrides, n, key);
        SubTouchesSame(st, st', overrides, n, name, s[|key| + 3..]);
    }
  }

  lemma {:induction false} RoundsTouchSame(st: Store, st': Store, n: nat, k: nat)
    requires Agree(st, st', RoundsTouch(st, n, k))
    ensures RoundsTouch(st', n, k) == RoundsTouch(st, n, k)
  {
    hide Round, EvalTouches, FlagsOf, RecordsOf;
    if k > 0 {
      RoundsTouchSame(st, st', n, k - 1);
      RoundsTouchMore(st, n, k - 1);
      RoundFrame(st, st', n, k - 1);
      if Round(st, n, k - 1).Ok? {
        EvalTouchesSame(st, st', Round(st, n, k - 1).value, n, "OVERRIDES");
      }
    }
  }

  // So settling stays within the same names over any number of such changes.
  lemma {:induction false} SettlesWithinStays(st: Store, st': Store, o: seq<string>, names: set<string>)
    requires SettlesWithin(st, o, names) && Agree(st, st', names)
    ensures SettlesWithin(st', o, names)
  {
    hide Round, RoundsTouch, FlagsOf, RecordsOf;
    var n: nat, k: nat :| RunSettles(st, o, n, k) && RoundsTouch(st, n, k + 1) <= names;
    RoundsTouchMore(st, n, k);
    RoundFrame(st, st', n, k + 1);
    RoundFrame(st, st', n, k);
    RoundsTouchSame(st, st', n, k + 1);
    assert RunSettles(st', o, n, k);
  }
}
