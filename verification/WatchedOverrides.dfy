// When all that OVERRIDES depends on is watched (data_smart.py:488-510, 622-638).
module WatchedOverrides {
  import opened Prelude
  import opened OverrideScan
  import opened Expansion
  import opened OverrideRounds
  import opened StoreOps
  import opened StoreLaws
  import opened CacheFacts
  import opened StoreCommands
  import opened DataStore

  // A variable without variants, whose value refers to nothing under any overrides.
  ghost predicate IsLeaf(st: Store, k: string) {
    && RecordsOf(st, k) == []
    && forall o :: PlainOption(RawFrom(FlagsOf(st, k), None, o)) && PlainTexts(ActiveTexts(FlagsOf(st, k).removes, o))
  }

  // One substitution in the value of OVERRIDES leaves no reference, unless it leaves the value as it is.
  ghost predicate IsExpandedAtOnce(st: Store, value: string) {
    forall o, n: nat :: Sub(st, o, n, "OVERRIDES", value).Ok? ==>
      var t := Sub(st, o, n, "OVERRIDES", value).value.0; t == value || !HasRef(t)
  }

  // OVERRIDES refers to such variables only.
  ghost predicate IsDirect(st: Store, value: string) {
    IsExpandedAtOnce(st, value) && forall k :: k in RefsIn(value) ==> IsLeaf(st, k)
  }

  lemma {:induction false} LeafTouchesItself(st: Store, o: seq<string>, n: nat, k: string)
    requires IsLeaf(st, k)
    ensures EvalTouches(st, o, n, k) == {k}
  {
    hide HasRef, RawFrom, ActiveTexts;
    NothingToChoose(o);
    if n > 0 {
      var texts := NOTHING.removes + ActiveTexts(FlagsOf(st, k).removes, o);
      assert texts == ActiveTexts(FlagsOf(st, k).removes, o);
      assert RemovesTouch(st, o, n - 1, texts) == {};
      assert FromTouches(st, o, n - 1, k, NOTHING) == {};
    }
  }

  lemma {:induction false} SubTouchesRefs(st: Store, o: seq<string>, n: nat, name: string, s: string)
    requires forall k :: k in RefsIn(s) ==> IsLeaf(st, k)
    ensures SubTouches(st, o, n, name, s) == RefsIn(s)
    decreases |s|
  {
    hide IsLeaf, EvalTouches;
    if s != "" {
      match RefAt(s)
      case None => SubTouchesRefs(st, o, n, name, s[1..]);
      case Some(key) =>
        LeafTouchesItself(st, o, n, key);
        SubTouchesRefs(st, o, n, name, s[|key| + 3..]);
    }
  }

  lemma {:induction false} OverridesTouch(st: Store, o: seq<string>, n: nat, value: string)
    requires Holds(st, "OVERRIDES", value) && IsDirect(st, value)
    ensures EvalTouches(st, o, n, "OVERRIDES") <= {"OVERRIDES"} + RefsIn(value)
  {
    hide HasRef, SubTouches, Sub, IsLeaf, RefsIn;
    NothingToChoose(o);
    if n > 0 {
      assert RawFrom(FlagsOf(st, "OVERRIDES"), None, o) == Some(value);
      assert NOTHING.removes + ActiveTexts([], o) == {};
      assert RemovesTouch(st, o, n - 1, {}) == {};
      if n > 1 {
        SubTouchesRefs(st, o, n - 2, "OVERRIDES", value);
        assert ExpandTouches(st, o, n - 1, "OVERRIDES", value) <= RefsIn(value);
      }
    }
  }

  lemma {:induction false} RoundsTouchOverrides(st: Store, n: nat, k: nat, value: string)
    requires Holds(st, "OVERRIDES", value) && IsDirect(st, value)
    ensures RoundsTouch(st, n, k) <= {"OVERRIDES"} + RefsIn(value)
  {
    hide Holds, IsDirect, EvalTouches, RefsIn;
    if k > 0 {
      RoundsTouchOverrides(st, n, k - 1, value);
      if Round(st, n, k - 1).Ok? {
        OverridesTouch(st, Round(st, n, k - 1).value, n, value);
      }
    }
  }

  // The rounds can be read at one depth.
  lemma {:induction false} SettlesAtOneDepth(st: Store, o: seq<string>) returns (n: nat, k: nat)
    requires Settles(st, o)
    ensures RunSettles(st, o, n, k)
  {
    hide Round;
    k :| SettlesAt(st, o, k);
    var m: nat :| Round(st, m, k) == Ok(o);
    var l: nat :| Round(st, l, k + 1) == Ok(o);
    n := m + l;
    RoundMono(st, m, n, k);
    RoundMono(st, l, n, k + 1);
  }

  // Once the overrides have settled, all that settling looks at is watched, if OVERRIDES and the variables
  // that stand in its value are.
  lemma {:induction false} DirectIsCovered(s: Situation, value: string)
    requires s.inForce.Some? && Settles(s.st, s.inForce.value) && Holds(s.st, "OVERRIDES", value)
    requires IsDirect(s.st, value) && {"OVERRIDES"} + RefsIn(value) <= s.watched
    ensures Covered(s)
  {
    hide Holds, IsDirect, RoundsTouch, RefsIn;
    var n, k := SettlesAtOneDepth(s.st, s.inForce.value);
    RoundsTouchOverrides(s.st, n, k + 1, value);
  }

  // A write of OVERRIDES, after which something needs the overrides.
  method WriteOverrides(d: DataSmart, depth: nat, value: string) returns (problem: Option<Problem>)
    requires d.Coherent() && "OVERRIDES" in d.overridevars
    modifies d, d.dict
    ensures d.Valid()
    ensures problem.None? ==> Holds(d.View(), "OVERRIDES", value) && {"OVERRIDES"} + RefsIn(value) <= d.overridevars
    ensures problem.None? && RemovesAgree(d.View()) ==> d.Coherent() && d.overrides.Some?
    ensures problem.None? && RemovesAgree(d.View()) && IsDirect(d.View(), value) ==> Covered(d.Now())
  {
    hide DataSmart.View, DataSmart.Valid, Settles, CacheFits, RemovesAgree, Holds, IsDirect, Covered, RefsIn, Outcome;
    IsNoOperator();
    ghost var st := d.View();
    ghost var used;
    problem, used := d.Set(depth, "OVERRIDES", value, false);
    if problem.Some? {
      return;
    }
    SetReadsBack(st, "OVERRIDES", value, used, []);
    var names := d.Keys(depth);
    if names.Err? {
      return Some(names.error);
    }
    if d.Coherent() && IsDirect(d.View(), value) {
      DirectIsCovered(d.Now(), value);
    }
  }

  lemma IsNoOperator()
    ensures ParseName("OVERRIDES").None?
  {
    NoColonNoOperator("OVERRIDES", 0);
  }
}
