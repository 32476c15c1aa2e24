// `A:append:foo:bar = ".."` and the like: an operator with a condition takes effect exactly when all
// overrides that the condition names are in force (data_smart.py:33, 567-591, 830-893).
module ConditionalEdits {
  import opened Prelude
  import opened Text
  import opened Words
  import opened OverrideScan
  import opened Expansion
  import opened EvalSteps
  import opened StoreOps
  import opened StoreLaws

  // An operator on a variable; `segs` are the overrides that it depends on, and none for one without condition.
  datatype Conditional = Conditional(keyword: Keyword, text: string, segs: seq<string>)

  // A segment holds no colon and no upper-case letter.
  predicate IsSegment(s: string) {
    forall i :: 0 <= i < |s| ==> s[i] != ':' && !('A' <= s[i] <= 'Z')
  }

  // One empty segment is no condition at all.
  predicate IsCondition(segs: seq<string>) {
    segs != [""] && forall s :: s in segs ==> IsSegment(s)
  }

  predicate AreConditional(edits: seq<Conditional>) {
    forall e :: e in edits ==> IsCondition(e.segs)
  }

  function CondOf(segs: seq<string>): string {
    if segs == [] then "" else Join(segs, ':')
  }

  // The name that is written: `v:append`, `v:append:foo`, `v:append:foo:bar`
  function NameOf(v: string, e: Conditional): string {
    v + Suffix(e.keyword) + if e.segs == [] then "" else ":" + CondOf(e.segs)
  }

  function AfterAll(st: Store, v: string, edits: seq<Conditional>): Store
    decreases |edits|
  {
    if edits == [] then st else AfterAll(AfterSetVar(st, NameOf(v, edits[0]), edits[0].text, true, []), v, edits[1..])
  }

  // All its overrides are in force.
  predicate InForce(e: Conditional, overrides: seq<string>) {
    forall s :: s in e.segs ==> s in overrides
  }

  // ----- names -----

  lemma {:induction false} JoinedSegments(segs: seq<string>)
    requires segs != [] && forall s :: s in segs ==> IsSegment(s)
    ensures segs != [""] ==> Join(segs, ':') != ""
    ensures forall i :: 0 <= i < |Join(segs, ':')| ==> !('A' <= Join(segs, ':')[i] <= 'Z')
  {
    var n := |segs| - 1;
    assert IsSegment(segs[n]);
    if n > 0 {
      JoinedSegments(segs[..n]);
    } else {
      assert segs == [segs[0]];
    }
  }

  lemma {:induction false} NameIsParsed(v: string, e: Conditional)
    requires ParseName(v).None? && IsCondition(e.segs)
    ensures ParseName(NameOf(v, e)) == Some(OpName(v, e.keyword, CondOf(e.segs)))
  {
    hide ParseFrom;
    var tail := if e.segs == [] then "" else ":" + CondOf(e.segs);
    if e.segs != [] {
      JoinedSegments(e.segs);
      assert tail[1..] == CondOf(e.segs) && forall i :: 1 <= i < |tail| ==> tail[i] == CondOf(e.segs)[i - 1];
    }
    assert Condition(tail) == Some(CondOf(e.segs));
    OperatorIsFound(v, e.keyword, tail, 0);
  }

  // With an upper-case letter behind it, it is no operator on `v`.
  lemma {:induction false} UpperCaseIsNoCondition(v: string, keyword: Keyword, cond: string)
    requires ParseName(v).None?
    ensures (ParseName(v + Suffix(keyword) + ":" + cond) == Some(OpName(v, keyword, cond))) <==>
      forall i :: 0 <= i < |cond| ==> !('A' <= cond[i] <= 'Z')
  {
    hide ParseFrom;
    var tail := ":" + cond;
    assert v + Suffix(keyword) + ":" + cond == v + Suffix(keyword) + tail;
    assert tail[1..] == cond && forall i :: 1 <= i < |tail| ==> tail[i] == cond[i - 1];
    OperatorIsFound(v, keyword, tail, 0);
    if i :| 0 <= i < |cond| && 'A' <= cond[i] <= 'Z' {
      assert tail[i + 1] == cond[i];
    }
  }

  lemma {:induction false} ActiveIffInForce(e: Conditional, overrides: seq<string>)
    requires IsCondition(e.segs)
    ensures OpActive(Op(e.text, CondOf(e.segs)), overrides) <==> InForce(e, overrides)
  {
    if e.segs != [] {
      JoinedSegments(e.segs);
      forall s | s in e.segs ensures ':' !in s {
        assert IsSegment(s);
      }
      SplitJoin(e.segs, ':');
    }
  }

  // ----- what the edits leave in the store -----

  function OpsFrom(edits: seq<Conditional>, keyword: Keyword): seq<Op> {
    if edits == [] then []
    else
      (if edits[0].keyword == keyword then [Op(edits[0].text, CondOf(edits[0].segs))] else [])
      + OpsFrom(edits[1..], keyword)
  }

  // `v` has content x, no variants, and the operators of the edits behind those of `f`.
  predicate HoldsEdits(st: Store, v: string, f: Flags, edits: seq<Conditional>) {
    && RecordsOf(st, v) == [] && FlagsOf(st, v).content == f.content
    && FlagsOf(st, v).appends == f.appends + OpsFrom(edits, Append)
    && FlagsOf(st, v).prepends == f.prepends + OpsFrom(edits, Prepend)
    && FlagsOf(st, v).removes == f.removes + OpsFrom(edits, Remove)
  }

  lemma {:induction false} EditsAreHeld(st: Store, v: string, edits: seq<Conditional>)
    requires ParseName(v).None? && AreConditional(edits) && RecordsOf(st, v) == []
    ensures HoldsEdits(AfterAll(st, v, edits), v, FlagsOf(st, v), edits)
    decreases |edits|
  {
    hide ParseFrom, RecordName, NameOf;
    var f := FlagsOf(st, v);
    if edits == [] {
      assert f.appends + [] == f.appends && f.prepends + [] == f.prepends && f.removes + [] == f.removes;
    } else {
      var e := edits[0];
      NameIsParsed(v, e);
      NotItsOwnKey(st.recorded, v);
      var next := AfterSetVar(st, NameOf(v, e), e.text, true, []);
      assert FlagsOf(next, v) == WithOp(f, e.keyword, Op(e.text, CondOf(e.segs)));
      EditsAreHeld(next, v, edits[1..]);
      OneMoreOp(f, e, edits);
    }
  }

  lemma OneMoreOp(f: Flags, e: Conditional, edits: seq<Conditional>)
    requires edits != [] && e == edits[0]
    ensures var g := WithOp(f, e.keyword, Op(e.text, CondOf(e.segs)));
      && g.appends + OpsFrom(edits[1..], Append) == f.appends + OpsFrom(edits, Append)
      && g.prepends + OpsFrom(edits[1..], Prepend) == f.prepends + OpsFrom(edits, Prepend)
      && g.removes + OpsFrom(edits[1..], Remove) == f.removes + OpsFrom(edits, Remove)
  {
    OneMoreOf(f.appends, edits, Append);
    OneMoreOf(f.prepends, edits, Prepend);
    OneMoreOf(f.removes, edits, Remove);
    hide OpsFrom, CondOf;
  }

  lemma OneMoreOf(ops: seq<Op>, edits: seq<Conditional>, keyword: Keyword)
    requires edits != []
    ensures var (e, rest) := (edits[0], OpsFrom(edits[1..], keyword));
      ops + OpsFrom(edits, keyword) ==
      if e.keyword == keyword then ops + [Op(e.text, CondOf(e.segs))] + rest else ops + rest
  {
    hide CondOf;
    var rest := OpsFrom(edits[1..], keyword);
    assert [] + rest == rest;
  }

  // ----- what is read -----

  // The texts appended and prepended by the edits in force: a1 + .. + an, and pm + .. + p1
  function AppendedIf(edits: seq<Conditional>, overrides: seq<string>): string {
    if edits == [] then ""
    else
      (if edits[0].keyword == Append && InForce(edits[0], overrides) then edits[0].text else "")
      + AppendedIf(edits[1..], overrides)
  }

  function PrependedIf(edits: seq<Conditional>, overrides: seq<string>): string {
    if edits == [] then ""
    else
      PrependedIf(edits[1..], overrides)
      + if edits[0].keyword == Prepend && InForce(edits[0], overrides) then edits[0].text else ""
  }

  lemma {:induction false} AppendsInForce(x: string, edits: seq<Conditional>, overrides: seq<string>)
    requires AreConditional(edits)
    ensures AppendAll(Some(x), OpsFrom(edits, Append), overrides) == Some(x + AppendedIf(edits, overrides))
    decreases |edits|
  {
    hide OpActive;
    if edits == [] {
      assert x + "" == x;
    } else {
      var e := edits[0];
      ActiveIffInForce(e, overrides);
      var rest := OpsFrom(edits[1..], Append);
      var now := if e.keyword == Append && InForce(e, overrides) then x + e.text else x;
      if e.keyword == Append {
        assert OpsFrom(edits, Append)[1..] == rest;
      } else {
        assert OpsFrom(edits, Append) == rest;
      }
      AppendsInForce(now, edits[1..], overrides);
      assert now + AppendedIf(edits[1..], overrides) == x + AppendedIf(edits, overrides);
    }
  }

  lemma {:induction false} PrependsInForce(x: string, edits: seq<Conditional>, overrides: seq<string>)
    requires AreConditional(edits)
    ensures PrependAll(Some(x), OpsFrom(edits, Prepend), overrides) == Some(PrependedIf(edits, overrides) + x)
    decreases |edits|
  {
    hide OpActive;
    if edits == [] {
      assert "" + x == x;
    } else {
      var e := edits[0];
      ActiveIffInForce(e, overrides);
      var rest := OpsFrom(edits[1..], Prepend);
      var now := if e.keyword == Prepend && InForce(e, overrides) then e.text + x else x;
      if e.keyword == Prepend {
        assert OpsFrom(edits, Prepend)[1..] == rest;
      } else {
        assert OpsFrom(edits, Prepend) == rest;
      }
      PrependsInForce(now, edits[1..], overrides);
      assert PrependedIf(edits[1..], overrides) + now == PrependedIf(edits, overrides) + x;
    }
  }

  // After `setVar(v, x)` and appends, prepends and removes with conditions, in any order: the unexpanded
  // value is x between the prepends and the appends whose overrides are all in force.
  lemma {:induction false} ConditionalsReadBack(st: Store, v: string, x: string, used: seq<string>,
                                                edits: seq<Conditional>, overrides: seq<string>)
    requires ParseName(v).None? && AreConditional(edits)
    ensures var after := AfterAll(AfterSetVar(st, v, x, false, used), v, edits);
      forall raw :: ReadsRaw(after, overrides, v, raw) <==>
        raw == Some(PrependedIf(edits, overrides) + x + AppendedIf(edits, overrides))
  {
    hide AppendAll, PrependAll;
    SetReadsBack(st, v, x, used, overrides);
    var start := AfterSetVar(st, v, x, false, used);
    EditsAreHeld(start, v, edits);
    var after := AfterAll(start, v, edits);
    assert [] + OpsFrom(edits, Append) == OpsFrom(edits, Append);
    assert [] + OpsFrom(edits, Prepend) == OpsFrom(edits, Prepend);
    AppendsInForce(x, edits, overrides);
    PrependsInForce(x + AppendedIf(edits, overrides), edits, overrides);
    NothingToChoose(overrides);
    assert VariantIs(after, overrides, v, NOTHING);
    assert PrependedIf(edits, overrides) + (x + AppendedIf(edits, overrides)) ==
      PrependedIf(edits, overrides) + x + AppendedIf(edits, overrides);
  }

  // The words that the removes in force name.
  function GoneIf(edits: seq<Conditional>, overrides: seq<string>): set<string> {
    set e, w | e in edits && e.keyword == Remove && InForce(e, overrides) && w in FieldSet(e.text) :: w
  }

  // A remove is among the operators if and only if it was written.
  lemma {:induction false} RemovesAreThose(edits: seq<Conditional>)
    ensures forall op :: op in OpsFrom(edits, Remove) <==>
      exists e :: e in edits && e.keyword == Remove && op == Op(e.text, CondOf(e.segs))
  {
    if edits != [] {
      RemovesAreThose(edits[1..]);
      var ops := OpsFrom(edits, Remove);
      forall op
        ensures op in ops <==> exists e :: e in edits && e.keyword == Remove && op == Op(e.text, CondOf(e.segs))
      {
        assert edits == [edits[0]] + edits[1..];
        if op in OpsFrom(edits[1..], Remove) {
          var e :| e in edits[1..] && e.keyword == Remove && op == Op(e.text, CondOf(e.segs));
          assert e in edits;
        } else if op in ops {
          assert edits[0] in edits;
        }
        if e :| e in edits && e.keyword == Remove && op == Op(e.text, CondOf(e.segs)) {
          assert e == edits[0] || e in edits[1..];
        }
      }
    }
  }

  lemma {:induction false} NamedIsGone(f: Flags, edits: seq<Conditional>, overrides: seq<string>)
    requires AreConditional(edits) && f.removes == OpsFrom(edits, Remove)
    ensures NamedWords(f, overrides) == GoneIf(edits, overrides)
  {
    hide OpActive, FieldSet, CondOf;
    RemovesAreThose(edits);
    forall w ensures w in NamedWords(f, overrides) <==> w in GoneIf(edits, overrides) {
      if w in NamedWords(f, overrides) {
        var r :| r in ActiveTexts(f.removes, overrides) && w in FieldSet(r);
        var op :| op in f.removes && OpActive(op, overrides) && op.text == r;
        var e :| e in edits && e.keyword == Remove && op == Op(e.text, CondOf(e.segs));
        ActiveIffInForce(e, overrides);
      }
      if w in GoneIf(edits, overrides) {
        var e :| e in edits && e.keyword == Remove && InForce(e, overrides) && w in FieldSet(e.text);
        ActiveIffInForce(e, overrides);
        var op := Op(e.text, CondOf(e.segs));
        assert op in f.removes && OpActive(op, overrides);
      }
    }
  }

  // And the value read is that text without the words of the removes whose overrides are all in force;
  // for texts without references.
  lemma {:induction false} ConditionalRemovesReadBack(st: Store, v: string, x: string, used: seq<string>,
                                                      edits: seq<Conditional>, overrides: seq<string>, e: Entry)
    requires ParseName(v).None? && AreConditional(edits)
    requires forall r :: r in edits && r.keyword == Remove ==> !HasRef(r.text)
    requires !HasRef(PrependedIf(edits, overrides) + x + AppendedIf(edits, overrides))
    requires Reads(AfterAll(AfterSetVar(st, v, x, false, used), v, edits), overrides, v, e)
    ensures var (built, gone) :=
        (PrependedIf(edits, overrides) + x + AppendedIf(edits, overrides), GoneIf(edits, overrides));
      && e.raw == Some(built) && e.value.Some?
      && Fields(e.value.value) == Keep(Fields(built), gone) && Spaces(e.value.value) == Spaces(built)
  {
    hide Eval, Spaces, Keep, Drop, PrependedIf, AppendedIf, AppendAll, PrependAll, HasRef, GoneIf, NamedWords;
    var start := AfterSetVar(st, v, x, false, used);
    var after := AfterAll(start, v, edits);
    SetReadsBack(st, v, x, used, overrides);
    EditsAreHeld(start, v, edits);
    assert [] + OpsFrom(edits, Remove) == OpsFrom(edits, Remove);
    ConditionalsReadBack(st, v, x, used, edits, overrides);
    RemovesAreThose(edits);
    NamedIsGone(FlagsOf(after, v), edits, overrides);
    PlainReadBack(after, v, PrependedIf(edits, overrides) + x + AppendedIf(edits, overrides), overrides, e);
  }
}
