// Two runs of the datastore after which a read is wrong (data_smart.py:542-623, 771-901).
module StaleReads {
  import opened Prelude
  import opened Text
  import opened Words
  import opened OverrideScan
  import opened OverrideOrder
  import opened OverrideChoice
  import opened OverrideNames
  import opened Expansion
  import opened OverrideRounds
  import opened EvalSteps
  import opened ThoroughReads
  import opened StoreOps
  import opened StoreLaws
  import opened StoreKeys
  import opened StoreRuns
  import opened CacheFacts
  import opened DataStore
  import opened SharedVariants

  // ----- a variant that two variables share -----

  const B_C := ["b", "c"]
  const BOTH := ["A", "A:b"]

  // With OVERRIDES = b:c, the variant `A:b:c` is the one of `A` and of `A:b`, and `A` has a `:remove`.
  predicate SharesWithRemoves(st: Store) {
    && FlagsOf(st, "A") == Flags(Some("x"), None, [], [], [Op("y", "")], map[])
    && FlagsOf(st, "A:b") == NO_FLAGS
    && FlagsOf(st, "A:b:c") == Flags(Some("y z"), None, [], [], [Op("q", "")], map[])
    && RecordsOf(st, "A") == [Record("A:b:c", "b:c")] && RecordsOf(st, "A:b") == [Record("A:b:c", "c")]
      && RecordsOf(st, "A:b:c") == []
  }

  lemma {:induction false} OnlyRecordIsChosen(r: Record, overrides: seq<string>)
    requires NoColons(overrides) && Clean(r.cond) && Within(Segments(r.cond), overrides)
    ensures Chosen([r], overrides) == Some(r.name)
  {
    hide Chosen, Clean, NoColons, Segments;
    ChosenIsWinner([r], overrides);
    assert r in [r];
    ChosenIsRecorded([r], overrides);
  }

  lemma {:induction false} PartsOfBoth()
    ensures Segments("c") == ["c"] && Segments("b:c") == ["b", "c"]
  {
    assert "b:c" == "b" + [':'] + "c";
    SplitSnoc("b", ':', "c");
    assert Split("b", ':') == ["b"];
  }

  lemma {:induction false} BothLieWithin()
    ensures Clean("b:c") && Within(Segments("b:c"), B_C) && Clean("c") && Within(Segments("c"), B_C) && NoColons(B_C)
  {
    hide Segments;
    PartsOfBoth();
    assert "c"[0] != "b"[0];
  }

  lemma {:induction false} BothShare(st: Store)
    requires SharesWithRemoves(st)
    ensures Chosen(RecordsOf(st, "A"), B_C) == Chosen(RecordsOf(st, "A:b"), B_C) == Some("A:b:c")
    ensures Chosen(RecordsOf(st, "A:b:c"), B_C) == None && !RemovesAgree(st)
  {
    hide Chosen, Segments, Within, Clean, NoColons, RemovesAgree;
    BothLieWithin();
    OnlyRecordIsChosen(Record("A:b:c", "b:c"), B_C);
    OnlyRecordIsChosen(Record("A:b:c", "c"), B_C);
    NothingToChoose(B_C);
    RemovesDiffer(st);
  }

  lemma {:induction false} RemovesDiffer(st: Store)
    requires SharesWithRemoves(st)
    ensures !RemovesAgree(st)
  {
    var (r, q) := (Record("A:b:c", "b:c"), Record("A:b:c", "c"));
    assert r in RecordsOf(st, "A") && q in RecordsOf(st, "A:b");
    assert CanCarry(st, "A:b:c") && SharesVariant(st, "A", "A:b");
    assert FlagsOf(st, "A").removes != FlagsOf(st, "A:b").removes;
  }

  lemma {:induction false} DropFirst(w: string, rest: string, gone: set<string>)
    requires IsWord(w) && (rest == "" || IsSpace(rest[0]))
    ensures Drop(w + rest, gone) == (if w in gone then "" else w) + Drop(rest, gone)
  {
    var s := w + rest;
    assert WordEnd(s) == |w| by {
      assert forall i :: 0 <= i < |w| ==> s[i] == w[i];
      assert rest != "" ==> s[|w|] == rest[0];
    }
    assert s[..|w|] == w && s[|w|..] == rest;
  }

  lemma {:induction false} TwoWords(a: string, b: string, gone: set<string>)
    requires IsWord(a) && IsWord(b)
    ensures Fields(a) == [a] && Fields(a + " " + b) == [a, b]
    ensures Drop(a + " " + b, gone) == (if a in gone then "" else a) + " " + (if b in gone then "" else b)
  {
    hide WordEnd, IsWord;
    var rest := " " + b;
    assert IsSpace(rest[0]) && rest[1..] == b && rest[..1] == " ";
    assert a + " " + b == a + rest && a + "" == a && b + "" == b;
    WordFirst(a, "");
    WordFirst(b, "");
    WordFirst(a, rest);
    DropFirst(a, rest, gone);
    DropFirst(b, "", gone);
    assert Fields(rest) == Fields(b) && Drop(rest, gone) == " " + Drop(b, gone);
  }

  lemma {:induction false} PiecesOfText()
    ensures Fields("y z") == ["y", "z"] && Drop("y z", {"q"}) == "y z" && Drop("y z", {"y"}) == " z"
    ensures FieldSet("y") == {"y"} && FieldSet("q") == {"q"}
  {
    hide Fields, Drop;
    assert "y z" == "y" + " " + "z" && " z" == "" + " " + "z";
    TwoWords("y", "z", {"q"});
    TwoWords("y", "z", {"y"});
    TwoWords("q", "z", {"y"});
  }

  lemma {:induction false} OneActive(t: string, overrides: seq<string>)
    ensures ActiveTexts([Op(t, "")], overrides) == {t} && ActiveTexts([], overrides) == {}
  {
    var ops := [Op(t, "")];
    assert ops[0] in ops && OpActive(ops[0], overrides);
  }

  lemma {:induction false} NoReference(s: string)
    requires '$' !in s
    ensures !HasRef(s)
  {
    if s != "" {
      assert "${"[0] == '$';
      NoReference(s[1..]);
    }
  }

  lemma {:induction false} PlainText()
    ensures !HasRef("y z") && !HasRef("y") && !HasRef("q")
  {
    NoReference("y z");
    NoReference("y");
    NoReference("q");
  }

  lemma GoneOfOne(w: string)
    ensures Gone(map[w := {w}]) == {w}
  {
    var words := map[w := {w}];
    assert w in words && w in words[w];
  }

  lemma {:induction false} ReadsOfText()
    ensures PlainRead(Some("y z"), {"q"}).removes == {} && PlainRead(Some("y z"), {}).value == Some("y z")
    ensures PlainRead(Some("y z"), {"y"}).value == Some(" z") && Matches("y", "y z")
  {
    hide Drop, Fields, FieldSet;
    PiecesOfText();
    ReadIsRemoved(Some("y z"), {"q"});
    ReadIsRemoved(Some("y z"), {"y"});
    assert PlainWords({"q"}) == map["q" := {"q"}] && PlainWords({"y"}) == map["y" := {"y"}];
    GoneOfOne("y");
    assert forall w :: w in Fields("y z") ==> w == "y" || w == "z";
    assert "y" in Fields("y z");
    assert PlainWords({}) == map[];
  }

  // The variant is shared, and the text of `A` matches a word of `A:b`.
  lemma {:induction false} SharingDoesHarm(st: Store)
    requires SharesWithRemoves(st)
    ensures Lending(st, B_C, "A:b:c", BOTH) && !Harmless(st, B_C, "A:b:c", BOTH)
    ensures Own(st, B_C, "A:b:c") == {} && Texts(st, B_C, "A:b") == {} && LentBy(st, B_C, "A:b:c", ["A"]) == {"y"}
    ensures RawOver(st, B_C, "A:b:c", "A:b") == Some("y z")
  {
    hide Chosen, HasRef, PlainRead, Matches;
    BothShare(st);
    OneActive("q", B_C);
    OneActive("y", B_C);
    PlainText();
    ReadsOfText();
    assert Texts(st, B_C, "A:b:c") == {"q"} && Base(st, B_C, "A:b:c") == Some("y z");
    assert Texts(st, B_C, "A") == {"y"} && RawOver(st, B_C, "A:b:c", "A") == Some("y z");
    assert LentBy(st, B_C, "A:b:c", [] + ["A"]) == {"y"} by { LentByMore(st, B_C, "A:b:c", [], "A"); }
    assert [] + ["A"] == ["A"] && BOTH[..1] == ["A"] && BOTH[1] == "A:b" && |"A"| != |"A:b"|;
    assert !HarmlessFor(st, B_C, "A:b:c", BOTH[..1], BOTH[1]);
  }

  // Reading `A` adds its `:remove` to the set that is cached for the variant. After that `A:b` reads as
  // " z", though it has no `:remove` itself and reads as "y z" from scratch; and the cache is wrong.
  method RemoveOfAnother(d: DataSmart, depth: nat) returns (value: Option<string>)
    requires d.Valid() && SharesWithRemoves(d.View()) && d.overrides == Some(B_C) && d.expandCache == map[] && depth > 0
    modifies d`overrides, d`inoverride, d`expandCache
    ensures d.Valid() && d.View() == old(d.View()) && d.overrides == Some(B_C)
    ensures value == Some(" z") && !d.Coherent()
    ensures exists e :: Reads(d.View(), B_C, "A:b", e) && e.value == Some("y z")
  {
    hide DataSmart.View, DataSmart.Valid, SharesWithRemoves, CacheFits, Lending, Harmless, Own, Texts, RawOver;
    hide PlainRead;
    ghost var st := d.View();
    SharingDoesHarm(st);
    ReadsOfText();
    ghost var none: set<string> := {};
    assert none + none == none && none + none + {"y"} == {"y"};
    ReadsFromScratch(st, B_C, "A:b:c", BOTH);
    var values := ReadInTurn(d, depth, "A:b:c", BOTH, B_C);
    assert BOTH[..1] == ["A"] && BOTH[1] == "A:b";
    value := values[1];
  }

  // ----- such a store is reached by four writes -----

  lemma {:induction false} NoOperatorInside(v: string, i: nat)
    requires forall j :: 0 <= j < |v| && v[j] == ':' ==> j + 1 < |v| && v[j + 1] !in {'a', 'p', 'r'}
    ensures ParseFrom(v, i).None?
    decreases |v| - i
  {
    if i < |v| {
      NoKeywordAt(v[i..]);
      NoOperatorInside(v, i + 1);
    }
  }

  lemma NoKeywordAt(s: string)
    requires s != "" && (s[0] == ':' ==> |s| > 1 && s[1] !in {'a', 'p', 'r'})
    ensures KeywordAt(s).None?
  {
    assert ":append"[0] == ':' && ":prepend"[0] == ':' && ":remove"[0] == ':';
    assert ":append"[1] == 'a' && ":prepend"[1] == 'p' && ":remove"[1] == 'r';
  }

  lemma NotOld(v: string)
    requires '_' !in v
    ensures !HasOldSyntax(v)
  {
    NotInSuffix(v, "_append");
    NotInSuffix(v, "_prepend");
    NotInSuffix(v, "_remove");
  }

  lemma {:induction false} RecordNested(recorded: map<string, seq<Record>>)
    ensures RecordName(recorded, "A:b:c") == AddRecord(AddRecord(recorded, "A:b", Record("A:b:c", "c")), "A",
      Record("A:b:c", "b:c"))
  {
    hide AddRecord, LastColon;
    LastColonIs("A:b", "c");
    LastColonIs("A", "b");
    var v := "A:b:c";
    assert v == "A:b" + ":" + "c" && v[..3] == "A:b" && v[4..] == "c" && "A:b" == "A" + ":" + "b" && v[..1] == "A"
      && v[2..] == "b:c";
    assert ':' !in "A" && LastColon("A") == None;
    assert "c"[0] == 'c' && "b:c"[0] == 'b' && IsOverride("c") && IsOverride("b:c");
    var once := AddRecord(recorded, "A:b", Record(v, "c"));
    assert "A" <= v && "A:b" <= v && "A:b"[..1] == "A" && LastColon("A:b") == Some(1);
    assert RecordAt(once, v, "A", "b:c") == AddRecord(once, "A", Record(v, "b:c"));
    assert RecordName(recorded, v) == RecordAt(recorded, v, "A:b", "c") == RecordAt(once, v, "A", "b:c");
  }

  const RECORDED := map["A:b" := [Record("A:b:c", "c")], "A" := [Record("A:b:c", "b:c")]]

  lemma {:induction false} RecordedTwice()
    ensures RecordName(map[], "A:b:c") == RECORDED && RecordName(RECORDED, "A:b:c") == RECORDED
  {
    hide RecordName, RecordAt;
    RecordNested(map[]);
    RecordNested(RECORDED);
    assert [] + [Record("A:b:c", "c")] == [Record("A:b:c", "c")]
      && [] + [Record("A:b:c", "b:c")] == [Record("A:b:c", "b:c")];
    assert |"A:b"| != |"A"|;
  }

  lemma {:induction false} SharingIsReachable() returns (writes: seq<Write>, st: Store)
    ensures StoreRuns.Reaches(NEW_STORE, writes, st) && SharesWithRemoves(st)
  {
    hide RecordName, ParseFrom, HasOldSyntax, AddRecord, SharesWithRemoves, StoreRuns.Reaches;
    var w1, w2 := SetVar("A", "x", true, []), SetVar("A:remove", "y", true, []);
    var w3, w4 := SetVar("A:b:c", "y z", true, []), SetVar("A:b:c:remove", "q", true, []);
    FourNames();
    var s1 := StoreRuns.After(NEW_STORE, w1);
    var s2 := StoreRuns.After(s1, w2);
    var s3 := StoreRuns.After(s2, w3);
    st := StoreRuns.After(s3, w4);
    FourWrites(s1, s2, s3, st);
    writes := [w1, w2, w3, w4];
    FourReach(w1, w2, w3, w4, s1, s2, s3, st);
  }

  lemma {:induction false} FourNames()
    ensures ParseName("A").None? && ParseName("A:remove") == Some(OpName("A", Remove, ""))
    ensures ParseName("A:b:c").None? && ParseName("A:b:c:remove") == Some(OpName("A:b:c", Remove, ""))
    ensures !HasOldSyntax("A") && !HasOldSyntax("A:remove") && !HasOldSyntax("A:b:c") && !HasOldSyntax("A:b:c:remove")
  {
    hide HasOldSyntax, ParseFrom;
    NoOperatorInside("A", 0);
    NoOperatorInside("A:b:c", 0);
    OperatorIsParsed("A", Remove, 0);
    OperatorIsParsed("A:b:c", Remove, 0);
    assert "A" + Suffix(Remove) == "A:remove" && "A:b:c" + Suffix(Remove) == "A:b:c:remove";
    NotOld("A");
    NotOld("A:remove");
    NotOld("A:b:c");
    NotOld("A:b:c:remove");
  }

  lemma {:induction false} FourWrites(s1: Store, s2: Store, s3: Store, st: Store)
    requires ParseName("A").None? && ParseName("A:remove") == Some(OpName("A", Remove, ""))
    requires ParseName("A:b:c").None? && ParseName("A:b:c:remove") == Some(OpName("A:b:c", Remove, ""))
    requires s1 == AfterSetVar(NEW_STORE, "A", "x", true, []) && s2 == AfterSetVar(s1, "A:remove", "y", true, [])
    requires s3 == AfterSetVar(s2, "A:b:c", "y z", true, []) && st == AfterSetVar(s3, "A:b:c:remove", "q", true, [])
    ensures SharesWithRemoves(st)
  {
    hide ParseFrom, RecordName;
    RecordedTwice();
    assert "A:b:c"[1] == ':' && |"A:b:c"| == 5 && |"A:b"| == 3 && |"A"| == 1;
    assert RecordName(map[], "A") == map[] by { UpperNameIsNotRecorded(); }
    assert s1.recorded == map[] && s2.recorded == map[] && s3.recorded == RECORDED && st.recorded == RECORDED;
    assert [] + [Op("y", "")] == [Op("y", "")] && [] + [Op("q", "")] == [Op("q", "")];
  }

  lemma UpperNameIsNotRecorded()
    ensures RecordName(map[], "A") == map[]
  {
    assert "A"[0] == 'A' && ':' !in "A";
  }

  lemma {:induction false} FourReach(w1: Write, w2: Write, w3: Write, w4: Write, s1: Store, s2: Store, s3: Store,
                                     st: Store)
    requires Accepted(NEW_STORE, w1) && s1 == StoreRuns.After(NEW_STORE, w1) && Accepted(s1, w2)
      && s2 == StoreRuns.After(s1, w2)
    requires Accepted(s2, w3) && s3 == StoreRuns.After(s2, w3) && Accepted(s3, w4) && st == StoreRuns.After(s3, w4)
    ensures StoreRuns.Reaches(NEW_STORE, [w1, w2, w3, w4], st)
  {
    hide Accepted, StoreRuns.After;
    var writes := [w1, w2, w3, w4];
    assert writes[1..] == [w2, w3, w4] && [w2, w3, w4][1..] == [w3, w4] && [w3, w4][1..] == [w4] && [w4][1..] == [];
    assert StoreRuns.Reaches(st, [], st);
    assert StoreRuns.Reaches(s3, [w4], st);
    assert StoreRuns.Reaches(s2, [w3, w4], st);
    assert StoreRuns.Reaches(s1, [w2, w3, w4], st);
  }

  // ----- a write that settling looks at -----

  predicate Holds(st: Store, v: string, text: string) {
    FlagsOf(st, v) == Flags(Some(text), None, [], [], [], map[])
  }

  // OVERRIDES gets its value from `V`, by way of `X`.
  predicate SettlesByWayOf(st: Store, text: string) {
    && Holds(st, "OVERRIDES", "${X}") && Holds(st, "X", "${V}") && Holds(st, "V", text)
    && RecordsOf(st, "OVERRIDES") == [] && RecordsOf(st, "X") == []
  }

  lemma {:induction false} NameEnds(k: string)
    requires forall i :: 0 <= i < |k| ==> IsNameChar(k[i])
    ensures NameEnd(k + "}") == |k|
  {
    if k == "" {
      assert k + "}" == "}";
    } else {
      assert (k + "}")[1..] == k[1..] + "}";
      NameEnds(k[1..]);
    }
  }

  lemma {:induction false} RefersTo(k: string)
    requires k != "" && forall i :: 0 <= i < |k| ==> IsNameChar(k[i])
    ensures var s := "${" + k + "}"; s != "" && HasRef(s) && RefAt(s) == Some(k) && s[|k| + 3..] == ""
  {
    var s := "${" + k + "}";
    assert s[2..] == k + "}" && s[..2] == "${" && s[2..2 + |k|] == k;
    NameEnds(k);
  }

  lemma {:induction false} LeafIsRead(st: Store, o: seq<string>, n: nat, v: string, t: string)
    requires Holds(st, v, t) && Chosen(RecordsOf(st, v), o) == None && !HasRef(t) && n > 0
    ensures Eval(st, o, n, v) == Ok(Entry(Some(t), Some(t), {}, {})) && Thorough(st, o, n, v)
  {
    hide HasRef;
    OneActive("", o);
    assert EvalVariant(st, o, n - 1, None) == Ok(NOTHING);
    assert RawFrom(FlagsOf(st, v), None, o) == Some(t);
    assert NOTHING.removes + ActiveTexts([], o) == {};
    assert EvalFrom(st, o, n - 1, v, NOTHING) == Ok(Entry(Some(t), Some(t), {}, {})) by {
      assert ExpandOption(st, o, n - 1, v, Some(t)) == Ok((Some(t), {}));
    }
    assert ThoroughFrom(st, o, n - 1, v, NOTHING) by {
      assert ThoroughText(st, o, n - 1, v, t) && ThoroughTexts(st, o, n - 1, {});
    }
  }

  // A variable that refers to another one, and to nothing else.
  lemma {:induction false} ReferenceIsRead(st: Store, o: seq<string>, n: nat, v: string, k: string, e: Entry, t: string)
    requires Holds(st, v, "${" + k + "}") && Chosen(RecordsOf(st, v), o) == None && k != v
    requires k != "" && forall i :: 0 <= i < |k| ==> IsNameChar(k[i])
    requires Thorough(st, o, n, k) && Eval(st, o, n, k) == Ok(e) && e.value == Some(t) && !HasRef(t)
    ensures exists f :: Eval(st, o, n + 2, v) == Ok(f) && f.value == Some(t)
    ensures Thorough(st, o, n + 2, v)
  {
    hide HasRef, RefAt, Eval, Thorough, Chosen;
    var s := "${" + k + "}";
    RefersTo(k);
    OneActive("", o);
    assert Sub(st, o, n, v, s[|k| + 3..]) == Ok(("", {})) && ThoroughSub(st, o, n, v, s[|k| + 3..]);
    assert t + "" == t && {k} + {} == {k};
    assert Sub(st, o, n, v, s) == Ok((t, {k})) && ThoroughSub(st, o, n, v, s);
    assert Expand(st, o, n, v, t) == Ok((t, {})) && ThoroughText(st, o, n, v, t);
    assert Expand(st, o, n + 1, v, s) == Ok((t, {k} + {}));
    assert ThoroughText(st, o, n + 1, v, s);
    ReadFromText(st, o, n + 1, v, s, t);
  }

  lemma {:induction false} ReadFromText(st: Store, o: seq<string>, n: nat, v: string, s: string, t: string)
    requires Holds(st, v, s) && Chosen(RecordsOf(st, v), o) == None
    requires Expand(st, o, n, v, s).Ok? && Expand(st, o, n, v, s).value.0 == t && ThoroughText(st, o, n, v, s)
    ensures exists f :: Eval(st, o, n + 1, v) == Ok(f) && f.value == Some(t)
    ensures Thorough(st, o, n + 1, v)
  {
    hide HasRef, Expand, ThoroughText, Chosen;
    OneActive("", o);
    assert EvalVariant(st, o, n, None) == Ok(NOTHING);
    assert RawFrom(FlagsOf(st, v), None, o) == Some(s);
    assert NOTHING.removes + ActiveTexts([], o) == {};
    var refs := Expand(st, o, n, v, s).value.1;
    assert EvalFrom(st, o, n, v, NOTHING) == Ok(Entry(Some(s), Some(t), refs, {})) by {
      assert ExpandOption(st, o, n, v, Some(s)) == Ok((Some(t), refs));
    }
    assert ThoroughFrom(st, o, n, v, NOTHING) by { assert ThoroughTexts(st, o, n, {}); }
  }

  lemma {:induction false} ChainIsRead(st: Store, o: seq<string>, n: nat, t: string)
    requires SettlesByWayOf(st, t) && Chosen(RecordsOf(st, "V"), o) == None && !HasRef(t) && n >= 5
    ensures Thorough(st, o, n, "OVERRIDES") && exists f :: Eval(st, o, n, "OVERRIDES") == Ok(f) && f.value == Some(t)
  {
    hide HasRef, Eval, Thorough, Chosen;
    NothingToChoose(o);
    LeafIsRead(st, o, n - 4, "V", t);
    assert "${" + "V" + "}" == "${V}" && "${" + "X" + "}" == "${X}" && "V"[0] != "X"[0] && |"X"| != |"OVERRIDES"|;
    ReferenceIsRead(st, o, n - 4, "X", "V", Entry(Some(t), Some(t), {}, {}), t);
    var f :| Eval(st, o, n - 2, "X") == Ok(f) && f.value == Some(t);
    ReferenceIsRead(st, o, n - 2, "OVERRIDES", "X", f, t);
  }

  // OVERRIDES settles on the one segment `t`, as long as no variant of `V` is active.
  lemma {:induction false} ChainSettles(st: Store, n: nat, t: string)
    requires SettlesByWayOf(st, t) && !HasRef(t) && ':' !in t && n >= 5
    requires Chosen(RecordsOf(st, "V"), []) == None && Chosen(RecordsOf(st, "V"), [t]) == None
    ensures Settles(st, [t]) && CanSettleAt(st, n, 1)
  {
    hide HasRef, Eval, Thorough, Chosen;
    assert SplitOverrides(Some(t)) == [t];
    ChainIsRead(st, [], n, t);
    ChainIsRead(st, [t], n, t);
    assert Round(st, n, 0) == Ok([]) && Round(st, n, 1) == Ok([t]);
    assert Round(st, n, 2) == Ok([t]);
    assert IsRound(st, 0, []) && IsRound(st, 1, [t]) && IsRound(st, 2, [t]);
    assert SettlesAt(st, [t], 1);
    RoundsAreThese(st, n, t);
  }

  lemma {:induction false} RoundsAreThese(st: Store, n: nat, t: string)
    requires IsRound(st, 0, []) && IsRound(st, 1, [t])
    requires Thorough(st, [], n, "OVERRIDES") && Thorough(st, [t], n, "OVERRIDES")
    ensures RoundIsThorough(st, n, 0) && RoundIsThorough(st, n, 1)
  {
    hide IsRound, Thorough;
    forall o | IsRound(st, 0, o) ensures Thorough(st, o, n, "OVERRIDES") {
      RoundIsFunctional(st, 0, o, []);
    }
    forall o | IsRound(st, 1, o) ensures Thorough(st, o, n, "OVERRIDES") {
      RoundIsFunctional(st, 1, o, [t]);
    }
  }

  const INACTIVE := Record("V:zz", "zz")

  lemma {:induction false} StaysInactive(t: string)
    requires t != "zz"
    ensures Chosen([INACTIVE], []) == None && Chosen([INACTIVE], [t]) == None && Chosen([], []) == None
      && Chosen([], [t]) == None
    ensures ActiveNames([INACTIVE], [t]) == []
  {
    hide Walk, Pass;
    assert ':' !in "zz" && [INACTIVE][1..] == [];
    CollectsNothing([INACTIVE], []);
    CollectsNothing([INACTIVE], [t]);
    NothingToChoose([]);
    NothingToChoose([t]);
  }

  lemma {:induction false} BeforeWrite(st: Store, depth: nat)
    requires SettlesByWayOf(st, "b") && st.recorded == map["V" := [INACTIVE]] && depth >= 5
    ensures var bare := WithoutOpsOn(st, "V");
      RemovesAgree(bare) && Settles(bare, ["b"]) && CanSettle(bare, true, depth)
    ensures ParseName("V").None? && !HasOldSyntax("V")
  {
    hide Settles, CanSettleAt, Chosen;
    var bare := WithoutOpsOn(st, "V");
    assert SettlesByWayOf(bare, "b") by { assert |"X"| != |"OVERRIDES"| && "X"[0] != "V"[0] && |"V"| != |"OVERRIDES"|; }
    StaysInactive("b");
    NoReference("b");
    ChainSettles(bare, depth, "b");
    NoColonNoOperator("V", 0);
    NotInSuffix("V", "_append");
    NotInSuffix("V", "_prepend");
    NotInSuffix("V", "_remove");
  }

  // A plain write of a variable whose variants are all inactive.
  lemma {:induction false} PlainWriteIs(st: Store, v: string, text: string, o: seq<string>, r: Record)
    requires ':' !in v && st.recorded == map[v := [r]] && ActiveNames([r], o) == []
    ensures var after := AfterSetVar(st, v, text, false, o);
      && after.recorded == map[] && FlagsOf(after, v) == WithoutOps(FlagsOf(st, v)).(content := Some(text))
      && forall k :: k != v ==> FlagsOf(after, k) == FlagsOf(st, k)
  {
    hide ActiveNames, ParseFrom;
    NoColonNoOperator(v, 0);
    assert v in st.recorded && st.recorded - {v} == map[];
  }

  lemma {:induction false} AfterWrite(st: Store)
    requires SettlesByWayOf(st, "b") && st.recorded == map["V" := [INACTIVE]]
    ensures var after := AfterSetVar(st, "V", "c", false, ["b"]);
      SettlesByWayOf(after, "c") && Settles(after, ["c"]) && !Settles(after, ["b"])
  {
    hide Settles, CanSettleAt, Chosen, AfterSetVar, ActiveNames, HasRef;
    var after := AfterSetVar(st, "V", "c", false, ["b"]);
    StaysInactive("b");
    StaysInactive("c");
    PlainWriteIs(st, "V", "c", ["b"], INACTIVE);
    assert |"X"| != |"OVERRIDES"| && "X"[0] != "V"[0] && |"V"| != |"OVERRIDES"|;
    NoReference("c");
    ChainSettles(after, 5, "c");
    OneOfThem(after);
  }

  lemma OneOfThem(st: Store)
    requires Settles(st, ["c"])
    ensures !Settles(st, ["b"])
  {
    if Settles(st, ["b"]) {
      SettlesIsFunctional(st, ["b"], ["c"]);
    }
  }

  // The entry that settling has cached for OVERRIDES.
  lemma {:induction false} CachedOverrides(st: Store, cache: Cache)
    requires SettlesByWayOf(st, "b") && st.recorded == map["V" := [INACTIVE]]
    requires CacheFits(WithoutOpsOn(st, "V"), Some(["b"]), cache) && "OVERRIDES" in cache
    ensures cache["OVERRIDES"].value == Some("b")
  {
    hide Chosen, Eval, HasRef, Thorough;
    var bare := WithoutOpsOn(st, "V");
    assert SettlesByWayOf(bare, "b") by { assert |"X"| != |"OVERRIDES"| && "X"[0] != "V"[0] && |"V"| != |"OVERRIDES"|; }
    StaysInactive("b");
    NoReference("b");
    ChainIsRead(bare, ["b"], 5, "b");
    var f :| Eval(bare, ["b"], 5, "OVERRIDES") == Ok(f) && f.value == Some("b");
    assert Allows(Some(["b"]), ["b"]) && Reads(bare, ["b"], "OVERRIDES", f);
    CachedFits(bare, Some(["b"]), cache, "OVERRIDES");
    ReadsIsFunctional(bare, ["b"], "OVERRIDES", f, EntryOf(cache["OVERRIDES"]));
  }

  // `V` is not watched, though OVERRIDES depends on it: the program does not follow references through
  // values that are expanded already. With no overrides in force, writing `V` makes them settle on the
  // value before the write; after it they are still in force, and OVERRIDES is still in the cache with
  // that value.
  method WriteBehindOverrides(d: DataSmart, depth: nat) returns (problem: Option<Problem>, value: Option<string>)
    requires d.Coherent() && d.overrides == None && "V" !in d.overridevars && depth >= 5
    requires SettlesByWayOf(d.View(), "b") && d.View().recorded == map["V" := [INACTIVE]]
    modifies d, d.dict
    ensures problem == None && d.Valid() && d.overrides == Some(["b"]) && value == Some("b")
    ensures SettlesByWayOf(d.View(), "c") && Settles(d.View(), ["c"]) && !d.Coherent()
  {
    hide DataSmart.View, DataSmart.Valid, Settles, CanSettle, SettlesByWayOf, CacheFits, AfterSetVar, Chosen,
      HasOldSyntax, RemovesAgree, ActiveNames, Thorough, ReadsThrough, PlainStep, PlainEffect;
    ghost var st := d.View();
    BeforeWrite(st, depth);
    d.RecordedKeys();
    ghost var used;
    problem, used := d.Set(depth, "V", "c", false);
    SettlesIsFunctional(WithoutOpsOn(st, "V"), used, ["b"]);
    StaysInactive("b");
    AfterWrite(st);
    CachedOverrides(st, d.expandCache);
    var p := d.GetEntry(depth, "OVERRIDES", true, d.View(), false);
    value := p.value.value;
  }
}
