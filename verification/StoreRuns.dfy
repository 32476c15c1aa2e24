// What every run of writes keeps of the recorded overrides (data_smart.py:542-769), and for which
// variables the choice of a variant depends on the order in which they were recorded.
module StoreRuns {
  import opened Prelude
  import opened Text
  import opened OverrideScan
  import opened OverrideChoice
  import opened Expansion
  import opened StoreOps
  import opened StoreLaws
  import opened StoreRename
  import RenameVariants

  // The names that `setVar` refuses when they start in lower case or with a digit.
  predicate HasOldPart(v: string) {
    Contains(v, "_append") || Contains(v, "_prepend") || Contains(v, "_remove")
  }

  // How an override is recorded under `k`: as `k:cond`, or, for a name without a colon, as that
  // name itself.
  predicate WellNamed(k: string, r: Record) {
    || r.name == k + ":" + r.cond
    || (r.name == r.cond && IsOverride(r.cond) && |k| + 1 == |r.cond| && k <= r.cond && ':' !in r.cond
      && !HasOldPart(r.cond))
  }

  ghost predicate WellRecorded(recorded: map<string, seq<Record>>) {
    forall k, r :: k in recorded && r in recorded[k] ==> WellNamed(k, r)
  }

  lemma {:induction false} RecordAtKeeps(recorded: map<string, seq<Record>>, v: string, short: string, override: string)
    requires WellRecorded(recorded) && short <= v
    requires IsOverride(override) ==> WellNamed(short, Record(v, override))
    ensures WellRecorded(RecordAt(recorded, v, short, override))
    decreases |short|
  {
    hide LastColon;
    var p := LastColon(short);
    if IsOverride(override) {
      var added := AddRecord(recorded, short, Record(v, override));
      assert WellRecorded(added);
      if p.Some? && p.value > 0 {
        var q := p.value;
        assert v == short[..q] + ":" + v[q + 1..] by { assert v[q] == short[q] == ':'; }
        RecordAtKeeps(added, v, short[..q], v[q + 1..]);
      }
    }
  }

  lemma {:induction false} RecordNameKeeps(recorded: map<string, seq<Record>>, v: string)
    requires WellRecorded(recorded) && (':' in v || !IsOverride(v) || !HasOldPart(v))
    ensures WellRecorded(RecordName(recorded, v))
  {
    match LastColon(v)
    case Some(p) =>
      assert v == v[..p] + ":" + v[p + 1..];
      RecordAtKeeps(recorded, v, v[..p], v[p + 1..]);
    case None =>
      if v != "" {
        RecordAtKeeps(recorded, v, v[..|v| - 1], v);
      }
  }

  lemma {:induction false} RemoveFirstShrinks(l: seq<Record>, x: Record)
    ensures forall r :: r in RemoveFirst(l, x) ==> r in l
  {
    if l != [] && l[0] != x {
      RemoveFirstShrinks(l[1..], x);
    }
  }

  lemma {:induction false} UnrecordAtKeeps(recorded: map<string, seq<Record>>, v: string, short: string,
                                           override: string)
    requires WellRecorded(recorded) && short <= v
    ensures WellRecorded(UnrecordAt(recorded, v, short, override))
    decreases |short|
  {
    hide LastColon;
    var p := LastColon(short);
    if IsOverride(override) {
      if short in recorded {
        RemoveFirstShrinks(recorded[short], Record(v, override));
      }
      var dropped := DropRecord(recorded, short, Record(v, override));
      assert WellRecorded(dropped);
      if p.Some? && p.value > 0 {
        assert short[..p.value] == v[..p.value];
        UnrecordAtKeeps(dropped, v, short[..p.value], v[p.value + 1..]);
      }
    }
  }

  lemma {:induction false} DelKeeps(st: Store, v: string)
    requires WellRecorded(st.recorded)
    ensures WellRecorded(AfterDel(st, v).recorded)
  {
    match LastColon(v)
    case Some(p) => UnrecordAtKeeps(st.recorded - {v}, v, v[..p], v[p + 1..]);
    case None =>
  }

  lemma {:induction false} DelsKeep(st: Store, names: seq<string>)
    requires WellRecorded(st.recorded)
    ensures WellRecorded(AfterDels(st, names).recorded)
    decreases |names|
  {
    if names != [] {
      DelKeeps(st, names[0]);
      DelsKeep(AfterDel(st, names[0]), names[1..]);
    }
  }

  lemma {:induction false} ContainsMore(s: string, t: string, pat: string)
    requires Contains(s, pat)
    ensures Contains(s + t, pat)
  {
    if !(pat <= s) {
      assert (s + t)[1..] == s[1..] + t;
      ContainsMore(s[1..], t, pat);
    }
  }

  lemma {:induction false} BaseIsPrefix(v: string, i: nat)
    requires i <= |v| && ParseFrom(v, i).Some?
    ensures ParseFrom(v, i).value.base <= v
    decreases |v| - i
  {
    if i < |v| && !(KeywordAt(v[i..]).Some? && Condition(KeywordAt(v[i..]).value.1).Some?) {
      BaseIsPrefix(v, i + 1);
    }
  }

  // The variable of an accepted operator.
  lemma {:induction false} BaseIsAccepted(v: string)
    requires !HasOldSyntax(v) && ParseName(v).Some?
    ensures var base := ParseName(v).value.base; !IsOverride(base) || !HasOldPart(base)
  {
    var base := ParseName(v).value.base;
    BaseIsPrefix(v, 0);
    assert v == base + v[|base|..];
    if IsOverride(base) && HasOldPart(base) {
      assert !("__anon_" <= v) by { assert "__anon_"[0] == '_' && v[0] == base[0]; }
      ContainsMoreOf(base, v[|base|..]);
    }
  }

  lemma ContainsMoreOf(s: string, t: string)
    requires HasOldPart(s)
    ensures HasOldPart(s + t)
  {
    if Contains(s, "_append") {
      ContainsMore(s, t, "_append");
    } else if Contains(s, "_prepend") {
      ContainsMore(s, t, "_prepend");
    } else {
      ContainsMore(s, t, "_remove");
    }
  }

  lemma {:induction false} SetKeeps(st: Store, v: string, text: string, parsing: bool, overrides: seq<string>)
    requires WellRecorded(st.recorded) && !HasOldSyntax(v)
    ensures WellRecorded(AfterSetVar(st, v, text, parsing, overrides).recorded)
  {
    match ParseName(v)
    case Some(name) =>
      BaseIsAccepted(v);
      RecordNameKeeps(st.recorded, name.base);
    case None =>
      var cleared := if parsing then st else Cleared(st, v, overrides);
      if !parsing && v in st.recorded {
        DelsKeep(WithoutOpsOn(st, v), ActiveNames(st.recorded[v], overrides));
      }
      if ':' in v {
        RecordNameKeeps(cleared.recorded, v);
      }
  }

  // ----- renaming -----

  // Under the new name every variant is recorded as one of it: `replace` must not change the override,
  // and must not find the old name anywhere but at the start.
  predicate NamesFollow(st: Store, key: string, newkey: string, depth: nat)
    decreases depth, 0, 0
  {
    depth > 0 && key != newkey ==> VariantsNamed(OperatorsMoved(st, key, newkey), key, newkey, depth - 1)
  }

  predicate VariantsNamed(st: Store, key: string, newkey: string, depth: nat)
    decreases depth, 2, 0
  {
    key in st.recorded ==> EachNamed(st.(recorded := st.recorded[newkey := []]), key, newkey, st.recorded[key], depth)
  }

  predicate EachNamed(st: Store, key: string, newkey: string, records: seq<Record>, depth: nat)
    decreases depth, 1, |records|
  {
    if records == [] || newkey !in st.recorded then true
    else
      var r := records[0];
      var v := Replace(r.name, key, newkey);
      var listed := Listed(st, newkey, Record(v, r.cond));
      var renamed := AfterRename(listed, r.name, v, depth);
      && WellNamed(newkey, Record(v, r.cond)) && NamesFollow(listed, r.name, v, depth)
      && (renamed.Ok? ==> EachNamed(renamed.value, key, newkey, records[1..], depth))
  }

  lemma {:induction false} RenameKeeps(st: Store, key: string, newkey: string, depth: nat)
    requires WellRecorded(st.recorded) && NamesFollow(st, key, newkey, depth) && AfterRename(st, key, newkey, depth).Ok?
    ensures WellRecorded(AfterRename(st, key, newkey, depth).value.recorded)
    decreases depth, 0, 0
  {
    hide AfterVariants, EachNamed, WellRecorded, AfterSetVar, AfterDel, HasOldSyntax;
    if key != newkey {
      var val := StartOf(FlagsOf(st, key));
      if val.Some? { SetKeeps(st, newkey, val.value, true, []); }
      var moved := OperatorsMoved(st, key, newkey);
      assert WellRecorded(moved.recorded);
      MovedKeeps(moved, key, newkey, depth - 1);
      var rest := VariantsMoved(moved, key, newkey, depth - 1).value;
      if val.None? && ':' in newkey { RecordNameKeeps(rest.recorded, newkey); }
      DelKeeps(WithName(rest, newkey, val), key);
    }
  }

  lemma {:induction false} MovedKeeps(st: Store, key: string, newkey: string, depth: nat)
    requires WellRecorded(st.recorded) && VariantsNamed(st, key, newkey, depth)
      && VariantsMoved(st, key, newkey, depth).Ok?
    ensures WellRecorded(VariantsMoved(st, key, newkey, depth).value.recorded)
    decreases depth, 2, 0
  {
    if key in st.recorded {
      EachKeeps(st.(recorded := st.recorded[newkey := []]), key, newkey, st.recorded[key], depth);
    }
  }

  lemma {:induction false} EachKeeps(st: Store, key: string, newkey: string, records: seq<Record>, depth: nat)
    requires WellRecorded(st.recorded) && EachNamed(st, key, newkey, records, depth)
    requires AfterVariants(st, key, newkey, records, depth).Ok?
    ensures WellRecorded(AfterVariants(st, key, newkey, records, depth).value.recorded)
    decreases depth, 1, |records|
  {
    hide AfterRename, NamesFollow, WellNamed;
    if records != [] {
      var r := records[0];
      var v := Replace(r.name, key, newkey);
      var listed := Listed(st, newkey, Record(v, r.cond));
      assert WellRecorded(listed.recorded);
      RenameKeeps(listed, r.name, v, depth);
      EachKeeps(AfterRename(listed, r.name, v, depth).value, key, newkey, records[1..], depth);
    }
  }

  // ----- runs -----

  // A write by any of the operations.
  datatype Write = SetVar(v: string, text: string, parsing: bool, used: seq<string>)
                 | DelVar(v: string)
                 | SetWeak(v: string, text: string)
                 | SetFlag(v: string, flag: string, text: string)
                 | RenameVar(v: string, newname: string, depth: nat)

  // The write goes through, and a rename keeps the form of the records.
  predicate Accepted(st: Store, w: Write) {
    match w
    case SetVar(v, _, _, _) => !HasOldSyntax(v)
    case RenameVar(v, newname, depth) => AfterRename(st, v, newname, depth).Ok? && NamesFollow(st, v, newname, depth)
    case _ => true
  }

  function After(st: Store, w: Write): Store
    requires Accepted(st, w)
  {
    match w
    case RenameVar(v, newname, depth) => AfterRename(st, v, newname, depth).value
    case SetVar(v, text, parsing, used) => AfterSetVar(st, v, text, parsing, used)
    case DelVar(v) => AfterDel(st, v)
    case SetWeak(v, text) => AfterWeak(st, v, text)
    case SetFlag(v, flag, text) => AfterFlag(st, v, flag, text)
  }

  ghost predicate Reaches(st: Store, writes: seq<Write>, after: Store)
    decreases |writes|
  {
    if writes == [] then st == after else Accepted(st, writes[0]) && Reaches(After(st, writes[0]), writes[1..], after)
  }

  lemma {:induction false} RunKeepsRecorded(st: Store, writes: seq<Write>, after: Store)
    requires WellRecorded(st.recorded) && Reaches(st, writes, after)
    ensures WellRecorded(after.recorded)
    decreases |writes|
  {
    hide WellRecorded;
    if writes != [] {
      match writes[0] {
        case SetVar(v, text, parsing, used) => SetKeeps(st, v, text, parsing, used);
        case DelVar(v) => DelKeeps(st, v);
        case SetWeak(v, text) => if ':' in v { RecordNameKeeps(st.recorded, v); }
        case SetFlag(v, flag, text) =>
        case RenameVar(v, newname, depth) => RenameKeeps(st, v, newname, depth);
      }
      RunKeepsRecorded(After(st, writes[0]), writes[1..], after);
    }
  }

  const NEW_STORE := Store(map[], map[])

  // In every store that writes can reach, the variant that a read of `v` picks does not depend on the
  // order in which the overrides were recorded.
  ghost predicate OrderFree(v: string) {
    forall writes, st, records, overrides :: PicksTheSame(writes, st, v, records, overrides)
  }

  ghost predicate PicksTheSame(writes: seq<Write>, st: Store, v: string, records: seq<Record>, overrides: seq<string>) {
    && Reaches(NEW_STORE, writes, st) && NoColons(overrides) && AllClean(RecordsOf(st, v))
    && (forall r :: r in RecordsOf(st, v) <==> r in records)
    ==> Chosen(records, overrides) == Chosen(RecordsOf(st, v), overrides)
  }

  // Variables under which the name of another variable, one character longer, can be recorded as if it
  // were a variant.
  predicate IsShortName(v: string) {
    (v == "" || IsOverride(v)) && ':' !in v && !HasOldPart(v)
  }

  lemma {:induction false} OthersAreOrderFree(writes: seq<Write>, st: Store, v: string, records: seq<Record>,
                                              overrides: seq<string>)
    requires !IsShortName(v)
    ensures PicksTheSame(writes, st, v, records, overrides)
  {
    var here := RecordsOf(st, v);
    if Reaches(NEW_STORE, writes, st) && NoColons(overrides) && AllClean(here) && forall r :: r in here <==>
      r in records {
      RunKeepsRecorded(NEW_STORE, writes, st);
      forall r | r in here ensures r.name == v + ":" + r.cond {
        assert WellNamed(v, r);
        NotRecordedAsItself(v, r);
      }
      OrderDoesNotMatter(here, records, overrides);
    }
  }

  lemma {:induction false} NotRecordedAsItself(v: string, r: Record)
    requires !IsShortName(v) && WellNamed(v, r)
    ensures r.name == v + ":" + r.cond
  {
    if r.name != v + ":" + r.cond {
      assert r.cond == v + r.cond[|v|..];
      if HasOldPart(v) { ContainsMoreOf(v, r.cond[|v|..]); }
    }
  }

  // ----- the variables for which the order does matter -----

  // For every other `v` it does: the operator on `vx` is recorded under `v`, where it competes with the
  // variant `v:vx`, and of the two the later one is picked.
  lemma {:induction false} ShortNamesCollide(v: string) returns (writes: seq<Write>, st: Store, records: seq<Record>)
    requires IsShortName(v)
    ensures !PicksTheSame(writes, st, v, records, [v + "x"])
  {
    hide Walk, ParseName, RecordName, HasOldSyntax, HasOldPart, Chosen, Reaches, AddRecord, FlagsOf;
    var o := v + "x";
    var (name, variant) := (Record(o, o), Record(v + ":" + o, o));
    assert |name.name| != |variant.name|;
    var first, second := SetWeak(v + ":" + o, ""), SetVar(o + ":append", "", true, []);
    writes := [first, second];
    var mid := After(NEW_STORE, first);
    RecordVariant(map[], v, o);
    assert mid.recorded == map[v := [variant]] by { AddSecond(v, variant, name); assert (v + ":" + o)[|v|] == ':'; }
    AppendToShortName(v, mid);
    st := After(mid, second);
    assert st.recorded == map[v := [variant, name]] by { AddSecond(v, variant, name); }
    records := [name, variant];
    TwoWrites(first, second, mid, st);
    assert RecordsOf(st, v) == [variant, name];
    LastRecordWins(variant, name, o);
    LastRecordWins(name, variant, o);
    assert Segments(o) == [o];
  }

  lemma {:induction false} TwoWrites(first: Write, second: Write, mid: Store, st: Store)
    requires Accepted(NEW_STORE, first) && mid == After(NEW_STORE, first) && Accepted(mid, second)
      && st == After(mid, second)
    ensures Reaches(NEW_STORE, [first, second], st)
  {
    var writes := [first, second];
    assert writes[1..] == [second] && writes[1..][1..] == [];
    assert Reaches(mid, [second], st) by { assert [second][1..] == []; }
  }

  lemma {:induction false} AppendToShortName(v: string, st: Store)
    requires IsShortName(v)
    ensures var (o, w) := (v + "x", SetVar(v + "x" + ":append", "", true, []));
      Accepted(st, w) && After(st, w).recorded == AddRecord(st.recorded, v, Record(o, o))
  {
    hide ParseFrom, HasOldSyntax, RecordName, AddRecord, FlagsOf;
    var o := v + "x";
    NoColonNoOperator(o, 0);
    OperatorIsParsed(o, Append, 0);
    ShortNameIsAccepted(v);
    RecordPlain(st.recorded, o);
    assert o[..|o| - 1] == v;
  }

  lemma {:induction false} ShortNameIsAccepted(v: string)
    requires IsShortName(v)
    ensures !HasOldSyntax(v + "x" + ":append") && IsOverride(v + "x")
  {
    hide Contains;
    NoOldPart(v, "_append");
    NoOldPart(v, "_prepend");
    NoOldPart(v, "_remove");
    assert v + "x:append" == v + "x" + ":append";
  }

  lemma {:induction false} RecordPlain(recorded: map<string, seq<Record>>, v: string)
    requires IsOverride(v) && ':' !in v
    ensures RecordName(recorded, v) == AddRecord(recorded, v[..|v| - 1], Record(v, v))
  {}

  lemma {:induction false} NoOldPart(v: string, pat: string)
    requires !Contains(v, pat) && pat != "" && pat[0] == '_' && 'x' !in pat
    ensures !Contains(v + "x:append", pat)
  {
    var s := v + "x:append";
    if v == "" {
      NotInSuffix("x:append", pat);
      assert s == "x:append";
    } else {
      assert s[1..] == v[1..] + "x:append";
      NoOldPart(v[1..], pat);
      assert pat <= s ==> |pat| <= |v| by { assert s[|v|] == 'x'; }
    }
  }

  lemma {:induction false} NotInSuffix(s: string, pat: string)
    requires pat != "" && pat[0] == '_' && '_' !in s
    ensures !Contains(s, pat)
  {
    if s != "" {
      NotInSuffix(s[1..], pat);
    }
  }

  lemma {:induction false} AddSecond(k: string, r: Record, q: Record)
    requires r != q
    ensures AddRecord(map[], k, r) == map[k := [r]] && AddRecord(map[k := [r]], k, q) == map[k := [r, q]]
  {
    assert [] + [r] == [r] && [r] + [q] == [r, q];
  }

  // Of two entries for one override, the later one counts.
  lemma {:induction false} LastRecordWins(r: Record, q: Record, o: string)
    requires r.cond == q.cond == o && ':' !in o && o != ""
    ensures Chosen([r, q], [o]) == Some(q.name)
  {
    var records := [r, q];
    assert records[1..] == [q] && [q][1..] == [];
    var once, active := Dict([o], map[o := r.name]), Dict([o], map[o := q.name]);
    assert Put(EMPTY, o, r.name) == once && Put(once, o, q.name) == active by {
      assert [] + [o] == [o];
      assert once.vals[o := q.name] == active.vals;
    }
    assert Collect(EMPTY, records, [o]) == Collect(once, records[1..], [o]) == Collect(active, records[1..][1..], [o]);
    OnlyKeyWins(o, q.name);
  }

  // The choice for `v` is free of the order if and only if no other variable can be recorded under it.
  lemma {:induction false} OrderFreeIff(v: string)
    ensures OrderFree(v) <==> !IsShortName(v)
  {
    if IsShortName(v) {
      var writes, st, records := ShortNamesCollide(v);
    } else {
      forall writes, st, records, overrides ensures PicksTheSame(writes, st, v, records, overrides) {
        OthersAreOrderFree(writes, st, v, records, overrides);
      }
    }
  }

  // ----- a rename that breaks the form -----

  lemma {:induction false} NothingMoved(st: Store, key: string, newkey: string) returns (moved: Store)
    requires FlagsOf(st, key) == NO_FLAGS
    ensures moved == OperatorsMoved(st, key, newkey) && moved.recorded == st.recorded
    ensures forall k :: FlagsOf(moved, k) == FlagsOf(st, k)
  {
    moved := OperatorsMoved(st, key, newkey);
    var f := FlagsOf(st, newkey);
    assert f.appends + [] == f.appends && f.prepends + [] == f.prepends && f.removes + [] == f.removes;
  }

  const OLD_RECORD := Record("a:a", "a")
  const MIXED_RECORD := Record("B:B", "a")

  // The rename of the variant itself.
  lemma {:induction false} InnerRename(st: Store)
    requires st.recorded == map["a" := [OLD_RECORD], "B" := [MIXED_RECORD]] && FlagsOf(st, "a:a") == NO_FLAGS
    ensures var r := AfterRename(st, "a:a", "B:B", 1);
      r.Ok? && r.value.recorded == map["a" := [], "B" := [MIXED_RECORD]] && NamesFollow(st, "a:a", "B:B", 1)
  {
    hide RecordName, UnrecordName, OperatorsMoved, HasOldSyntax;
    assert "a:a"[0] == 'a' && "B:B"[0] == 'B';
    var moved := NothingMoved(st, "a:a", "B:B");
    assert |"a:a"| == 3 && |"a"| == 1 && |"B"| == 1;
    assert "a:a" !in moved.recorded;
    assert RecordName(moved.recorded, "B:B") == moved.recorded by { UpperIsNoOverride(moved.recorded); }
    assert WithName(moved, "B:B", None) == moved;
    RenameVariants.UnrecordVariant(moved.recorded, "a", "a");
    assert RenameVariants.Variant("a", "a") == "a:a";
    assert moved.recorded - {"a:a"} == moved.recorded;
    assert RemoveFirst([OLD_RECORD], OLD_RECORD) == [];
    assert DropRecord(moved.recorded, "a", OLD_RECORD) == map["a" := [], "B" := [MIXED_RECORD]];
  }

  lemma {:induction false} UpperIsNoOverride(recorded: map<string, seq<Record>>)
    ensures RecordName(recorded, "B:B") == recorded
  {
    LastColonIs("B", "B");
    assert "B" + ":" + "B" == "B:B" && "B:B"[2..] == "B" && "B:B"[..1] == "B";
  }

  lemma {:induction false} ReplaceBoth()
    ensures Replace("a:a", "a", "B") == "B:B"
  {
    var s := "a:a";
    assert s[0] == 'a' && s[1] == ':' && s[2] == 'a';
    assert s[1..] == ":a" && ":a"[1..] == "a" && "a"[1..] == "";
    assert Replace("a", "a", "B") == "B" + Replace("", "a", "B") == "B";
    assert Replace(":a", "a", "B") == ":" + Replace("a", "a", "B");
  }

  // The loop over the one variant.
  lemma {:induction false} MixedVariants(start: Store) returns (rest: Store)
    requires start.recorded == map["a" := [OLD_RECORD], "B" := []] && FlagsOf(start, "a:a") == NO_FLAGS
    ensures AfterVariants(start, "a", "B", [OLD_RECORD], 1) == Ok(rest)
      && rest.recorded == map["a" := [], "B" := [MIXED_RECORD]]
    ensures !EachNamed(start, "a", "B", [OLD_RECORD], 1)
  {
    hide AfterRename, NamesFollow, Replace;
    ReplaceBoth();
    var listed := Listed(start, "B", MIXED_RECORD);
    assert listed.recorded == map["a" := [OLD_RECORD], "B" := [MIXED_RECORD]]
      by { assert [] + [MIXED_RECORD] == [MIXED_RECORD]; }
    InnerRename(listed);
    rest := AfterRename(listed, "a:a", "B:B", 1).value;
    assert [OLD_RECORD][1..] == [];
    NotWellNamed();
  }

  lemma NotWellNamed()
    ensures !WellNamed("B", MIXED_RECORD)
  {
    assert MIXED_RECORD.name[2] == 'B' && ("B" + ":" + "a")[2] == 'a';
    assert |MIXED_RECORD.name| == 3 && |MIXED_RECORD.cond| == 1;
  }

  // Renaming `a`, with the variant `a:a`, to `B` records the name `B:B` for the override `a`; a later
  // write of `B:a` is recorded for the same override, and the order of the two matters.
  lemma {:induction false} RenameMixesNames() returns (st: Store, after: Store)
    ensures WellRecorded(st.recorded) && AfterRename(st, "a", "B", 2) == Ok(after) && !NamesFollow(st, "a", "B", 2)
    ensures RecordsOf(after, "B") == [MIXED_RECORD] && !WellRecorded(after.recorded)
    ensures var here := RecordsOf(WithContent(after, "B:a", ""), "B");
      && here == [MIXED_RECORD, Record("B:a", "a")]
      && Chosen(here, ["a"]) == Some("B:a") && Chosen([here[1], here[0]], ["a"]) == Some("B:B")
  {
    hide OperatorsMoved, AfterVariants, EachNamed, RecordName, Walk, HasOldSyntax, AfterSetVar;
    st := Store(map[], map["a" := [OLD_RECORD]]);
    assert "a" + ":" + "a" == "a:a" && "a"[0] != "B"[0];
    var moved := NothingMoved(st, "a", "B");
    var start := moved.(recorded := moved.recorded["B" := []]);
    assert start.recorded == map["a" := [OLD_RECORD], "B" := []];
    assert FlagsOf(start, "a:a") == FlagsOf(moved, "a:a") == FlagsOf(st, "a:a");
    var rest := MixedVariants(start);
    after := AfterDel(rest, "a");
    assert after.recorded == map["B" := [MIXED_RECORD]];
    assert VariantsMoved(moved, "a", "B", 1) == Ok(rest);
    NotWellNamed();
    WriteVariant(after);
  }

  lemma {:induction false} WriteVariant(st: Store)
    requires st.recorded == map["B" := [MIXED_RECORD]]
    ensures var (here, variant) := (RecordsOf(WithContent(st, "B:a", ""), "B"), Record("B:a", "a"));
      && here == [MIXED_RECORD, variant]
      && Chosen([MIXED_RECORD, variant], ["a"]) == Some("B:a") && Chosen([variant, MIXED_RECORD], ["a"]) == Some("B:B")
  {
    hide RecordName, Walk;
    var variant := Record("B:a", "a");
    assert "B" + ":" + "a" == "B:a" && "B:a"[1] == ':' && "B:a"[2] == 'a' && MIXED_RECORD.name[2] == 'B';
    RecordVariant(st.recorded, "B", "a");
    AddSecond("B", MIXED_RECORD, variant);
    LastRecordWins(MIXED_RECORD, variant, "a");
    LastRecordWins(variant, MIXED_RECORD, "a");
  }
}
