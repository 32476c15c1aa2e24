// Renaming a variable (data_smart.py:661-701): its value, its operators, and its variants.
module StoreRename {
  import opened Prelude
  import opened Text
  import opened OverrideScan
  import opened Expansion
  import opened EvalSteps
  import opened StoreOps
  import opened StoreLaws

  function StartOf(f: Flags): Option<string> {
    if f.content.Some? then f.content else f.weak
  }

  function Merged(g: Flags, f: Flags): Flags {
    g.(appends := g.appends + f.appends, prepends := g.prepends + f.prepends, removes := g.removes + f.removes)
  }

  function WithMerged(st: Store, v: string, f: Flags): Store {
    WithFlags(st, v, Merged(FlagsOf(st, v), f))
  }

  // One operator list gets more entries.
  function WithMore(f: Flags, keyword: Keyword, ops: seq<Op>): Flags {
    match keyword
    case Append => f.(appends := f.appends + ops)
    case Prepend => f.(prepends := f.prepends + ops)
    case Remove => f.(removes := f.removes + ops)
  }

  // After the value, if there is one, has been written under the new name.
  function Written(st: Store, key: string, newkey: string): Store {
    match StartOf(FlagsOf(st, key))
    case Some(text) => AfterSetVar(st, newkey, text, true, [])
    case None => st
  }

  // And after the operators have followed. They are those that `key` has after the write.
  function OperatorsMoved(st: Store, key: string, newkey: string): Store {
    var written := Written(st, key, newkey);
    WithMerged(written, newkey, FlagsOf(written, key))
  }

  // The new name is recorded for its prefixes by the write; without a value it is recorded here.
  function WithName(st: Store, newkey: string, val: Option<string>): Store {
    if val.None? && ':' in newkey then st.(recorded := RecordName(st.recorded, newkey)) else st
  }

  // `renameVar`
  function AfterRename(st: Store, key: string, newkey: string, depth: nat): Result<Store, Problem>
    decreases depth, 0, 0
  {
    if depth == 0 then Err(TooDeep)
    else if key == newkey then Ok(st)
    else
      var val := StartOf(FlagsOf(st, key));
      if val.Some? && HasOldSyntax(newkey) then Err(OldSyntax)
      else
        match VariantsMoved(OperatorsMoved(st, key, newkey), key, newkey, depth - 1)
        case Err(e) => Err(e)
        case Ok(rest) => Ok(AfterDel(WithName(rest, newkey, val), key))
  }

  function VariantsMoved(st: Store, key: string, newkey: string, depth: nat): Result<Store, Problem>
    decreases depth, 2, 0
  {
    if key in st.recorded then
      AfterVariants(st.(recorded := st.recorded[newkey := []]), key, newkey, st.recorded[key], depth)
    else Ok(st)
  }

  // The loop over the recorded overrides of the variable: each is listed for the new name, then its
  // own variable is renamed.
  function AfterVariants(st: Store, key: string, newkey: string, records: seq<Record>, depth: nat): Result<Store,
                         Problem>
    decreases depth, 1, |records|
  {
    if records == [] then Ok(st)
    else if newkey !in st.recorded then Err(MissingKey)
    else
      var r := records[0];
      var v := Replace(r.name, key, newkey);
      match AfterRename(Listed(st, newkey, Record(v, r.cond)), r.name, v, depth)
      case Err(e) => Err(e)
      case Ok(rest) => AfterVariants(rest, key, newkey, records[1..], depth)
  }

  function Listed(st: Store, newkey: string, r: Record): Store
    requires newkey in st.recorded
  {
    st.(recorded := st.recorded[newkey := st.recorded[newkey] + [r]])
  }

  // ----- stores that read the same -----

  ghost predicate Alike(st: Store, st': Store) {
    st.recorded == st'.recorded && forall v :: FlagsOf(st, v) == FlagsOf(st', v)
  }

  ghost predicate SameOutcome(r: Result<Store, Problem>, r': Result<Store, Problem>) {
    if r.Ok? then r'.Ok? && Alike(r.value, r'.value) else r' == r
  }

  lemma AlikeItself(st: Store)
    ensures Alike(st, st)
  {}

  lemma SameItself(r: Result<Store, Problem>)
    ensures SameOutcome(r, r)
  {}

  lemma ParsingClearsNothing(st: Store, v: string, text: string, overrides: seq<string>)
    ensures AfterSetVar(st, v, text, true, overrides) == AfterSetVar(st, v, text, true, [])
  {}

  lemma {:induction false} PutAlike(st: Store, st': Store, v: string, f: Flags, recorded: map<string, seq<Record>>)
    requires Alike(st, st')
    ensures Alike(Store(st.vars[v := f], recorded), Store(st'.vars[v := f], recorded))
    ensures Alike(st.(recorded := recorded), st'.(recorded := recorded))
  {
    var (s, t) := (Store(st.vars[v := f], recorded), Store(st'.vars[v := f], recorded));
    forall k ensures FlagsOf(s, k) == FlagsOf(t, k) {
      assert FlagsOf(st, k) == FlagsOf(st', k);
    }
    forall k ensures FlagsOf(st.(recorded := recorded), k) == FlagsOf(st'.(recorded := recorded), k) {
      assert FlagsOf(st, k) == FlagsOf(st', k);
    }
  }

  lemma {:induction false} SetAlike(st: Store, st': Store, v: string, text: string)
    requires Alike(st, st')
    ensures Alike(AfterSetVar(st, v, text, true, []), AfterSetVar(st', v, text, true, []))
  {
    match ParseName(v)
    case Some(name) =>
      PutAlike(st, st', name.base, WithOp(FlagsOf(st, name.base), name.keyword, Op(text, name.add)),
        RecordName(st.recorded, name.base));
    case None =>
      PutAlike(st, st', v, FlagsOf(st, v).(content := Some(text)), if ':' in v then RecordName(st.recorded, v)
        else st.recorded);
  }

  lemma {:induction false} OperatorsAlike(st: Store, st': Store, key: string, newkey: string)
    requires Alike(st, st')
    ensures Alike(OperatorsMoved(st, key, newkey), OperatorsMoved(st', key, newkey))
  {
    hide AfterSetVar;
    assert FlagsOf(st, key) == FlagsOf(st', key);
    if StartOf(FlagsOf(st, key)).Some? { SetAlike(st, st', newkey, StartOf(FlagsOf(st, key)).value); }
    var written, written' := Written(st, key, newkey), Written(st', key, newkey);
    assert FlagsOf(written, key) == FlagsOf(written', key);
    PutAlike(written, written', newkey, Merged(FlagsOf(written, newkey), FlagsOf(written, key)), written.recorded);
  }

  lemma {:induction false} DelAlike(st: Store, st': Store, v: string)
    requires Alike(st, st')
    ensures Alike(AfterDel(st, v), AfterDel(st', v))
  {
    PutAlike(st, st', v, NO_FLAGS, UnrecordName(st.recorded - {v}, v));
  }

  lemma {:induction false} NoMoreAlike(st: Store, v: string, keyword: Keyword)
    ensures Alike(st, WithFlags(st, v, WithMore(FlagsOf(st, v), keyword, [])))
  {
    var f := FlagsOf(st, v);
    assert f.appends + [] == f.appends && f.prepends + [] == f.prepends && f.removes + [] == f.removes;
  }

  lemma {:induction false} AlikeTransitive(st: Store, st': Store, st'': Store)
    requires Alike(st, st') && Alike(st', st'')
    ensures Alike(st, st'')
  {
    forall v ensures FlagsOf(st, v) == FlagsOf(st'', v) {
      assert FlagsOf(st, v) == FlagsOf(st', v);
    }
  }

  // The three lists one after another are all operators at once.
  lemma {:induction false} OneListAtATime(st: Store, st1: Store, st2: Store, st3: Store, v: string, f: Flags)
    requires Alike(st1, WithFlags(st, v, WithMore(FlagsOf(st, v), Append, f.appends)))
    requires Alike(st2, WithFlags(st1, v, WithMore(FlagsOf(st1, v), Prepend, f.prepends)))
    requires Alike(st3, WithFlags(st2, v, WithMore(FlagsOf(st2, v), Remove, f.removes)))
    ensures Alike(st3, WithMerged(st, v, f))
  {
    var m := WithMerged(st, v, f);
    forall k ensures FlagsOf(st3, k) == FlagsOf(m, k) {
      assert FlagsOf(st3, k) == FlagsOf(WithFlags(st2, v, WithMore(FlagsOf(st2, v), Remove, f.removes)), k);
      assert FlagsOf(st2, k) == FlagsOf(WithFlags(st1, v, WithMore(FlagsOf(st1, v), Prepend, f.prepends)), k);
      assert FlagsOf(st1, k) == FlagsOf(WithFlags(st, v, WithMore(FlagsOf(st, v), Append, f.appends)), k);
    }
  }

  // One turn of the loop over the variants.
  lemma {:induction false} VariantsOnce(start: Store, st: Store, next: Store, key: string, newkey: string,
                                        all: seq<Record>, i: nat, depth: nat)
    requires i < |all| && newkey in st.recorded
    requires SameOutcome(AfterVariants(st, key, newkey, all[i..], depth), AfterVariants(start, key, newkey, all, depth))
    requires var v := Replace(all[i].name, key, newkey);
      SameOutcome(Ok(next), AfterRename(Listed(st, newkey, Record(v, all[i].cond)), all[i].name, v, depth))
    ensures SameOutcome(AfterVariants(next, key, newkey, all[i + 1..], depth),
      AfterVariants(start, key, newkey, all, depth))
  {
    hide Alike;
    var v := Replace(all[i].name, key, newkey);
    var renamed := AfterRename(Listed(st, newkey, Record(v, all[i].cond)), all[i].name, v, depth);
    assert all[i..][0] == all[i] && all[i..][1..] == all[i + 1..];
    VariantsAlike(next, renamed.value, key, newkey, all[i + 1..], depth);
    var (r, r', r'') := (AfterVariants(next, key, newkey, all[i + 1..], depth),
      AfterVariants(st, key, newkey, all[i..], depth),
                         AfterVariants(start, key, newkey, all, depth));
    if r.Ok? { AlikeTransitive(r.value, r'.value, r''.value); }
  }

  // What renaming makes of a store depends only on what can be read from it.
  lemma {:induction false} RenameAlike(st: Store, st': Store, key: string, newkey: string, depth: nat)
    requires Alike(st, st')
    ensures SameOutcome(AfterRename(st, key, newkey, depth), AfterRename(st', key, newkey, depth))
    decreases depth, 0, 0
  {
    hide AfterVariants, HasOldSyntax, VariantsMoved, OperatorsMoved;
    assert FlagsOf(st, key) == FlagsOf(st', key);
    var val := StartOf(FlagsOf(st, key));
    if depth > 0 && key != newkey && !(val.Some? && HasOldSyntax(newkey)) {
      var moved, moved' := OperatorsMoved(st, key, newkey), OperatorsMoved(st', key, newkey);
      OperatorsAlike(st, st', key, newkey);
      MovedAlike(moved, moved', key, newkey, depth - 1);
      EndAlike(VariantsMoved(moved, key, newkey, depth - 1), VariantsMoved(moved', key, newkey, depth - 1), key,
        newkey, val);
    }
  }

  lemma {:induction false} EndAlike(r: Result<Store, Problem>, r': Result<Store, Problem>, key: string, newkey: string,
                                    val: Option<string>)
    requires SameOutcome(r, r')
    ensures r.Ok? ==> Alike(AfterDel(WithName(r.value, newkey, val), key),
      AfterDel(WithName(r'.value, newkey, val), key))
  {
    if r.Ok? {
      PutAlike(r.value, r'.value, key, NO_FLAGS, WithName(r.value, newkey, val).recorded);
      DelAlike(WithName(r.value, newkey, val), WithName(r'.value, newkey, val), key);
    }
  }

  lemma {:induction false} MovedAlike(st: Store, st': Store, key: string, newkey: string, depth: nat)
    requires Alike(st, st')
    ensures SameOutcome(VariantsMoved(st, key, newkey, depth), VariantsMoved(st', key, newkey, depth))
    decreases depth, 2, 0
  {
    if key in st.recorded {
      PutAlike(st, st', key, NO_FLAGS, st.recorded[newkey := []]);
      VariantsAlike(st.(recorded := st.recorded[newkey := []]), st'.(recorded := st'.recorded[newkey := []]), key,
        newkey, st.recorded[key], depth);
    }
  }

  lemma {:induction false} VariantsAlike(st: Store, st': Store, key: string, newkey: string, records: seq<Record>,
                                         depth: nat)
    requires Alike(st, st')
    ensures SameOutcome(AfterVariants(st, key, newkey, records, depth), AfterVariants(st', key, newkey, records, depth))
    decreases depth, 1, |records|
  {
    if records != [] && newkey in st.recorded {
      var r := records[0];
      var v := Replace(r.name, key, newkey);
      var listed, listed' := Listed(st, newkey, Record(v, r.cond)), Listed(st', newkey, Record(v, r.cond));
      PutAlike(st, st', key, NO_FLAGS, listed.recorded);
      RenameAlike(listed, listed', r.name, v, depth);
      var next, next' := AfterRename(listed, r.name, v, depth), AfterRename(listed', r.name, v, depth);
      if next.Ok? {
        VariantsAlike(next.value, next'.value, key, newkey, records[1..], depth);
      }
    }
  }

  // Renaming step by step: each step may start from a store that is only alike.
  lemma {:induction false} RenameInSteps(st: Store, key: string, newkey: string, depth: nat, operators: Store,
                                         variants: Store)
    requires depth > 0 && key != newkey && !(StartOf(FlagsOf(st, key)).Some? && HasOldSyntax(newkey))
    requires Alike(operators, OperatorsMoved(st, key, newkey))
    requires SameOutcome(Ok(variants), VariantsMoved(operators, key, newkey, depth - 1))
    ensures SameOutcome(Ok(AfterDel(WithName(variants, newkey, StartOf(FlagsOf(st, key))), key)),
      AfterRename(st, key, newkey, depth))
  {
    hide AfterVariants, HasOldSyntax, VariantsMoved, OperatorsMoved;
    var val := StartOf(FlagsOf(st, key));
    MovedAlike(operators, OperatorsMoved(st, key, newkey), key, newkey, depth - 1);
    EndAlike(Ok(variants), VariantsMoved(OperatorsMoved(st, key, newkey), key, newkey, depth - 1), key, newkey, val);
  }

  // ----- what renaming touches -----

  // The names whose flags or recorded overrides renaming may change.
  function RenameTouches(st: Store, key: string, newkey: string, depth: nat): set<string>
    decreases depth, 0, 0
  {
    if depth == 0 || key == newkey then {}
    else
      var moved := OperatorsMoved(st, key, newkey);
      SetTouches(st, newkey, true, []) + DelTouches(newkey) + DelTouches(key)
        + VariantsTouched(moved, key, newkey, depth - 1)
  }

  function VariantsTouched(st: Store, key: string, newkey: string, depth: nat): set<string>
    decreases depth, 2, 0
  {
    if key in st.recorded then
      {newkey} + VariantsTouch(st.(recorded := st.recorded[newkey := []]), key, newkey, st.recorded[key], depth)
    else {}
  }

  function VariantsTouch(st: Store, key: string, newkey: string, records: seq<Record>, depth: nat): set<string>
    decreases depth, 1, |records|
  {
    if records == [] || newkey !in st.recorded then {}
    else
      var r := records[0];
      var v := Replace(r.name, key, newkey);
      var listed := Listed(st, newkey, Record(v, r.cond));
      {newkey} + RenameTouches(listed, r.name, v, depth)
        + match AfterRename(listed, r.name, v, depth)
          case Err(_) => {}
          case Ok(rest) => VariantsTouch(rest, key, newkey, records[1..], depth)
  }

  lemma {:induction false} SameButBoth(st: Store, st': Store, st'': Store, touched: set<string>, touched': set<string>)
    requires SameBut(st, st', touched) && SameBut(st', st'', touched')
    ensures SameBut(st, st'', touched + touched')
  {
    forall k | k !in touched + touched' ensures Same(st, st'', k) {
      assert Same(st, st', k) && Same(st', st'', k);
    }
  }

  lemma {:induction false} RenameTouchesOnly(st: Store, key: string, newkey: string, depth: nat)
    requires AfterRename(st, key, newkey, depth).Ok?
    ensures SameBut(st, AfterRename(st, key, newkey, depth).value, RenameTouches(st, key, newkey, depth))
    decreases depth, 0, 0
  {
    hide SameBut, AfterVariants, VariantsTouch, VariantsMoved, VariantsTouched, SetTouches, DelTouches,
      OperatorsMoved, WithName, AfterDel;
    if key != newkey {
      var moved := OperatorsMoved(st, key, newkey);
      var rest := VariantsMoved(moved, key, newkey, depth - 1).value;
      var named := WithName(rest, newkey, StartOf(FlagsOf(st, key)));
      var written, variants := SetTouches(st, newkey, true, []) + DelTouches(newkey),
        VariantsTouched(moved, key, newkey, depth - 1);
      OperatorsTouchOnly(st, key, newkey);
      VariantsMovedTouchOnly(moved, key, newkey, depth - 1);
      SameButBoth(st, moved, rest, written, variants);
      NameTouchesOnly(rest, newkey, StartOf(FlagsOf(st, key)));
      SameButBoth(st, rest, named, written + variants, DelTouches(newkey));
      DelTouchesOnly(named, key);
      SameButBoth(st, named, AfterDel(named, key), written + variants + DelTouches(newkey), DelTouches(key));
      assert written + variants + DelTouches(newkey) + DelTouches(key) == RenameTouches(st, key, newkey, depth);
    } else {
      SameButNothing(st);
    }
  }

  lemma SameButNothing(st: Store)
    ensures SameBut(st, st, {})
  {}

  lemma {:induction false} OperatorsTouchOnly(st: Store, key: string, newkey: string)
    ensures SameBut(st, OperatorsMoved(st, key, newkey), SetTouches(st, newkey, true, []) + DelTouches(newkey))
  {
    hide AfterSetVar, SetTouches;
    if StartOf(FlagsOf(st, key)).Some? {
      SetTouchesOnly(st, newkey, StartOf(FlagsOf(st, key)).value, true, []);
    }
    var written := Written(st, key, newkey);
    assert SameBut(written, OperatorsMoved(st, key, newkey), DelTouches(newkey));
    assert SameBut(st, written, SetTouches(st, newkey, true, []));
  }

  lemma {:induction false} NameTouchesOnly(st: Store, newkey: string, val: Option<string>)
    ensures SameBut(st, WithName(st, newkey, val), DelTouches(newkey))
  {
    RecordNameTouches(st.recorded, newkey);
  }

  lemma {:induction false} VariantsMovedTouchOnly(st: Store, key: string, newkey: string, depth: nat)
    requires VariantsMoved(st, key, newkey, depth).Ok?
    ensures SameBut(st, VariantsMoved(st, key, newkey, depth).value, VariantsTouched(st, key, newkey, depth))
    decreases depth, 2, 0
  {
    hide SameBut, AfterVariants, VariantsTouch;
    if key in st.recorded {
      var start := st.(recorded := st.recorded[newkey := []]);
      RecordsTouchOnly(st, newkey, []);
      VariantsTouchOnly(start, key, newkey, st.recorded[key], depth);
      SameButBoth(st, start, VariantsMoved(st, key, newkey, depth).value, {newkey},
        VariantsTouch(start, key, newkey, st.recorded[key], depth));
    } else {
      SameButNothing(st);
    }
  }

  lemma RecordsTouchOnly(st: Store, newkey: string, records: seq<Record>)
    ensures SameBut(st, st.(recorded := st.recorded[newkey := records]), {newkey})
  {}

  lemma {:induction false} VariantsTouchOnly(st: Store, key: string, newkey: string, records: seq<Record>, depth: nat)
    requires AfterVariants(st, key, newkey, records, depth).Ok?
    ensures SameBut(st, AfterVariants(st, key, newkey, records, depth).value,
      VariantsTouch(st, key, newkey, records, depth))
    decreases depth, 1, |records|
  {
    hide SameBut, AfterRename, RenameTouches;
    if records == [] {
      SameButNothing(st);
    } else {
      var r := records[0];
      var v := Replace(r.name, key, newkey);
      var listed := Listed(st, newkey, Record(v, r.cond));
      var next := AfterRename(listed, r.name, v, depth).value;
      RecordsTouchOnly(st, newkey, listed.recorded[newkey]);
      RenameTouchesOnly(listed, r.name, v, depth);
      SameButBoth(st, listed, next, {newkey}, RenameTouches(listed, r.name, v, depth));
      VariantsTouchOnly(next, key, newkey, records[1..], depth);
      SameButBoth(st, next, AfterVariants(next, key, newkey, records[1..], depth).value,
                  {newkey} + RenameTouches(listed, r.name, v, depth),
                    VariantsTouch(next, key, newkey, records[1..], depth));
    }
  }

  // ----- what renaming is for -----

  // Nothing is known under this name.
  predicate IsUnused(st: Store, v: string) {
    FlagsOf(st, v) == NO_FLAGS && RecordsOf(st, v) == []
  }

  // Renaming a variable without variants to an unused name: the new name reads, unexpanded and under
  // any overrides, exactly as the old one did, and the old name is gone.
  lemma {:induction false} RenameMoves(st: Store, key: string, newkey: string, depth: nat, overrides: seq<string>)
    requires depth > 0 && key != newkey && key !in st.recorded && newkey !in st.recorded && IsUnused(st, newkey)
    requires ParseName(newkey).None? && !HasOldSyntax(newkey) && newkey !in ColonPrefixes(key)
      && key !in ColonPrefixes(newkey)
    ensures AfterRename(st, key, newkey, depth).Ok?
    ensures var after := AfterRename(st, key, newkey, depth).value;
      && IsUnused(after, key)
      && forall raw :: ReadsRaw(after, overrides, newkey, raw) <==> ReadsRaw(st, overrides, key, raw)
  {
    hide AfterDel, ReadsRaw, HasOldSyntax, ColonPrefixes, Written, SetTouches;
    var val := StartOf(FlagsOf(st, key));
    MergedFlags(st, key, newkey);
    assert [] + FlagsOf(st, key).appends == FlagsOf(st, key).appends
      && [] + FlagsOf(st, key).prepends == FlagsOf(st, key).prepends;
    var merged := OperatorsMoved(st, key, newkey);
    var named := WithName(merged, newkey, val);
    NotItsOwnKey(merged.recorded, newkey);
    DelKeepsOther(named, key, newkey);
    SameRaw(st, key, AfterDel(named, key), newkey, overrides);
    GoneAfterDel(named, key);
  }

  lemma {:induction false} DelKeepsOther(st: Store, key: string, newkey: string)
    requires key != newkey && newkey !in ColonPrefixes(key)
    ensures Same(st, AfterDel(st, key), newkey)
  {
    DelTouchesOnly(st, key);
  }

  lemma {:induction false} GoneAfterDel(st: Store, v: string)
    ensures IsUnused(AfterDel(st, v), v)
  {
    match LastColon(v)
    case Some(p) =>
      UnrecordAtTouches(st.recorded - {v}, v, v[..p], v[p + 1..]);
      assert forall k :: k in {v[..p]} + ColonPrefixes(v[..p]) ==> |k| < |v|;
    case None =>
  }

  // Two variables without variants whose values and operators agree read the same.
  lemma {:induction false} SameRaw(st: Store, v: string, st': Store, v': string, overrides: seq<string>)
    requires RecordsOf(st, v) == [] && RecordsOf(st', v') == []
    requires var (f, g) := (FlagsOf(st, v), FlagsOf(st', v'));
      StartOf(f) == StartOf(g) && f.appends == g.appends && f.prepends == g.prepends
    ensures forall raw :: ReadsRaw(st, overrides, v, raw) <==> ReadsRaw(st', overrides, v', raw)
  {
    NothingToChoose(overrides);
    assert VariantIs(st, overrides, v, NOTHING) && VariantIs(st', overrides, v', NOTHING);
    assert RawFrom(FlagsOf(st, v), None, overrides) == RawFrom(FlagsOf(st', v'), None, overrides);
  }

  // Both names in use, without variants: the value of the old one replaces that of the new one, if there is
  // one, the operators of the new name apply to it first, and those of the old name after them.
  lemma {:induction false} RenameMerges(st: Store, key: string, newkey: string, depth: nat, overrides: seq<string>)
    requires depth > 0 && key != newkey && key !in st.recorded && newkey !in st.recorded
    requires ParseName(newkey).None? && !HasOldSyntax(newkey) && newkey !in ColonPrefixes(key)
      && key !in ColonPrefixes(newkey)
    ensures AfterRename(st, key, newkey, depth).Ok?
    ensures var (f, g, after) :=
        (FlagsOf(st, key), FlagsOf(st, newkey), AfterRename(st, key, newkey, depth).value);
      var start := if StartOf(f).Some? then StartOf(f) else StartOf(g);
      var appended := AppendAll(AppendAll(start, g.appends, overrides), f.appends, overrides);
      && IsUnused(after, key)
      && forall raw :: ReadsRaw(after, overrides, newkey, raw) <==>
           raw == PrependAll(PrependAll(appended, g.prepends, overrides), f.prepends, overrides)
  {
    hide AfterDel, HasOldSyntax, ColonPrefixes, Written, SetTouches, AppendAll, PrependAll, ReadsRaw;
    var (f, g, val) := (FlagsOf(st, key), FlagsOf(st, newkey), StartOf(FlagsOf(st, key)));
    MergedFlags(st, key, newkey);
    var merged := OperatorsMoved(st, key, newkey);
    hide OperatorsMoved;
    var named := WithName(merged, newkey, val);
    NotItsOwnKey(merged.recorded, newkey);
    DelKeepsOther(named, key, newkey);
    GoneAfterDel(named, key);
    RawOfMerged(AfterDel(named, key), newkey, f, g, if val.Some? then val else StartOf(g), overrides);
  }

  lemma {:induction false} RawOfMerged(st: Store, v: string, f: Flags, g: Flags, start: Option<string>,
                                       overrides: seq<string>)
    requires RecordsOf(st, v) == [] && StartOf(FlagsOf(st, v)) == start
    requires FlagsOf(st, v).appends == g.appends + f.appends && FlagsOf(st, v).prepends == g.prepends + f.prepends
    ensures var appended := AppendAll(AppendAll(start, g.appends, overrides), f.appends, overrides);
      forall raw :: ReadsRaw(st, overrides, v, raw) <==>
        raw == PrependAll(PrependAll(appended, g.prepends, overrides), f.prepends, overrides)
  {
    hide AppendAll, PrependAll;
    AppendsInTurn(start, g.appends, f.appends, overrides);
    PrependsInTurn(AppendAll(start, g.appends + f.appends, overrides), g.prepends, f.prepends, overrides);
    NothingToChoose(overrides);
    assert VariantIs(st, overrides, v, NOTHING);
  }

  lemma {:induction false} AppendsInTurn(start: Option<string>, some: seq<Op>, more: seq<Op>, overrides: seq<string>)
    ensures AppendAll(start, some + more, overrides) == AppendAll(AppendAll(start, some, overrides), more, overrides)
    decreases |some|
  {
    hide OpActive;
    if some == [] {
      assert some + more == more;
    } else {
      assert (some + more)[0] == some[0] && (some + more)[1..] == some[1..] + more;
      AppendsInTurn(if OpActive(some[0], overrides) then Some(OrEmpty(start) + some[0].text) else start, some[1..],
        more, overrides);
    }
  }

  lemma {:induction false} PrependsInTurn(start: Option<string>, some: seq<Op>, more: seq<Op>, overrides: seq<string>)
    ensures PrependAll(start, some + more, overrides) == PrependAll(PrependAll(start, some, overrides), more, overrides)
    decreases |some|
  {
    hide OpActive;
    if some == [] {
      assert some + more == more;
    } else {
      assert (some + more)[0] == some[0] && (some + more)[1..] == some[1..] + more;
      PrependsInTurn(if OpActive(some[0], overrides) then Some(some[0].text + OrEmpty(start)) else start, some[1..],
        more, overrides);
    }
  }

  // What is under the new name before the old one goes.
  lemma {:induction false} MergedFlags(st: Store, key: string, newkey: string)
    requires key != newkey && key !in st.recorded && newkey !in st.recorded
    requires ParseName(newkey).None? && key !in ColonPrefixes(newkey)
    ensures var (f, g, moved) := (FlagsOf(st, key), FlagsOf(st, newkey), OperatorsMoved(st, key, newkey));
      var merged := FlagsOf(moved, newkey);
      && StartOf(merged) == (if StartOf(f).Some? then StartOf(f) else StartOf(g))
      && merged.appends == g.appends + f.appends && merged.prepends == g.prepends + f.prepends
      && key !in moved.recorded && newkey !in moved.recorded
  {
    RecordNameTouches(st.recorded, newkey);
    NotItsOwnKey(st.recorded, newkey);
    assert FlagsOf(Written(st, key, newkey), key) == FlagsOf(st, key);
  }
}
