// Laws about sequences of writes and reads: what a read finds after them, what they leave alone,
// and what they keep (data_smart.py:542-769).
module StoreLaws {
  import opened Prelude
  import opened Text
  import opened Words
  import opened OverrideScan
  import opened OverrideChoice
  import opened Expansion
  import opened OverrideRounds
  import opened EvalSteps
  import opened StoreOps

  // ----- what a write touches -----

  function ColonPrefixes(v: string): set<string> {
    set p | 0 <= p < |v| && v[p] == ':' :: v[..p]
  }

  // The keys under which `RecordName` records `v`.
  function RecordKeys(v: string): set<string> {
    if ':' in v then ColonPrefixes(v) else if v == "" then {} else {v[..|v| - 1]}
  }

  function DelTouches(v: string): set<string> {
    {v} + ColonPrefixes(v)
  }

  function DelsTouch(names: seq<string>): set<string> {
    set r, k | r in names && k in DelTouches(r) :: k
  }

  function SetTouches(st: Store, v: string, parsing: bool, overrides: seq<string>): set<string> {
    match ParseName(v)
    case Some(name) => {name.base} + RecordKeys(name.base)
    case None => DelTouches(v) + if parsing then {} else DelsTouch(ActiveNames(RecordsOf(st, v), overrides))
  }

  predicate Same(st: Store, st': Store, k: string) {
    FlagsOf(st, k) == FlagsOf(st', k) && RecordsOf(st, k) == RecordsOf(st', k)
  }

  ghost predicate SameBut(st: Store, st': Store, touched: set<string>) {
    forall k :: k !in touched ==> Same(st, st', k)
  }

  ghost predicate SameRecords(recorded: map<string, seq<Record>>, recorded': map<string, seq<Record>>,
                              touched: set<string>) {
    forall k :: k !in touched ==> (k in recorded <==> k in recorded') && (k in recorded ==> recorded[k] == recorded'[k])
  }

  lemma {:induction false} ShorterPrefixes(short: string, p: nat)
    requires p < |short| && short[p] == ':'
    ensures ColonPrefixes(short[..p]) + {short[..p]} <= ColonPrefixes(short)
  {
    forall q | 0 <= q < p ensures short[..p][..q] == short[..q] {}
  }

  lemma {:induction false} RecordAtTouches(recorded: map<string, seq<Record>>, v: string, short: string,
                                           override: string)
    requires short <= v
    ensures SameRecords(recorded, RecordAt(recorded, v, short, override), {short} + ColonPrefixes(short))
    decreases |short|
  {
    hide LastColon, ColonPrefixes, IsOverride;
    var p := LastColon(short);
    if IsOverride(override) && p.Some? && p.value > 0 {
      var q := p.value;
      assert short[..q] == v[..q];
      ShorterPrefixes(short, q);
      RecordAtTouches(AddRecord(recorded, short, Record(v, override)), v, short[..q], v[q + 1..]);
    }
  }

  lemma {:induction false} RecordNameTouches(recorded: map<string, seq<Record>>, v: string)
    ensures SameRecords(recorded, RecordName(recorded, v), RecordKeys(v))
  {
    match LastColon(v)
    case Some(p) =>
      ShorterPrefixes(v, p);
      RecordAtTouches(recorded, v, v[..p], v[p + 1..]);
    case None =>
      if v != "" {
        var short := v[..|v| - 1];
        assert ':' !in short && ColonPrefixes(short) == {};
        RecordAtTouches(recorded, v, short, v);
      }
  }

  lemma {:induction false} UnrecordAtTouches(recorded: map<string, seq<Record>>, v: string, short: string,
                                             override: string)
    requires short <= v
    ensures SameRecords(recorded, UnrecordAt(recorded, v, short, override), {short} + ColonPrefixes(short))
    decreases |short|
  {
    hide LastColon, ColonPrefixes, IsOverride;
    var p := LastColon(short);
    if IsOverride(override) && p.Some? && p.value > 0 {
      var q := p.value;
      assert short[..q] == v[..q];
      ShorterPrefixes(short, q);
      UnrecordAtTouches(DropRecord(recorded, short, Record(v, override)), v, short[..q], v[q + 1..]);
    }
  }

  lemma {:induction false} DelTouchesOnly(st: Store, v: string)
    ensures SameBut(st, AfterDel(st, v), DelTouches(v))
  {
    match LastColon(v)
    case Some(p) =>
      ShorterPrefixes(v, p);
      UnrecordAtTouches(st.recorded - {v}, v, v[..p], v[p + 1..]);
    case None =>
  }

  lemma {:induction false} DelsTouchOnly(st: Store, names: seq<string>)
    ensures SameBut(st, AfterDels(st, names), DelsTouch(names))
    decreases |names|
  {
    if names != [] {
      DelTouchesOnly(st, names[0]);
      DelsTouchOnly(AfterDel(st, names[0]), names[1..]);
      assert DelTouches(names[0]) <= DelsTouch(names) && DelsTouch(names[1..]) <= DelsTouch(names);
    }
  }

  lemma {:induction false} ContentTouchesOnly(st: Store, v: string, text: string)
    ensures SameBut(st, WithContent(st, v, text), DelTouches(v))
  {
    if ':' in v {
      RecordNameTouches(st.recorded, v);
    }
  }

  lemma {:induction false} ClearedTouchesOnly(st: Store, v: string, overrides: seq<string>)
    ensures SameBut(st, Cleared(st, v, overrides), {v} + DelsTouch(ActiveNames(RecordsOf(st, v), overrides)))
  {
    if v in st.recorded {
      DelsTouchOnly(WithoutOpsOn(st, v), ActiveNames(st.recorded[v], overrides));
    }
  }

  // `setVar` changes the flags and the recorded overrides of the names in `SetTouches` only.
  lemma {:induction false} SetTouchesOnly(st: Store, v: string, text: string, parsing: bool, overrides: seq<string>)
    ensures SameBut(st, AfterSetVar(st, v, text, parsing, overrides), SetTouches(st, v, parsing, overrides))
  {
    match ParseName(v)
    case Some(name) => RecordNameTouches(st.recorded, name.base);
    case None =>
      var mid := if parsing then st else Cleared(st, v, overrides);
      ClearedTouchesOnly(st, v, overrides);
      assert SameBut(st, mid, SetTouches(st, v, parsing, overrides));
      ContentTouchesOnly(mid, v, text);
  }

  // ----- writes that leave the settled overrides alone -----

  // Some run settles on `o` without looking at any of `touched`.
  ghost predicate SettlesWithout(st: Store, o: seq<string>, touched: set<string>) {
    exists n: nat, k: nat :: RunSettles(st, o, n, k) && RoundsTouch(st, n, k + 1) !! touched
  }

  lemma {:induction false} StillSettles(st: Store, st': Store, o: seq<string>, touched: set<string>)
    requires SettlesWithout(st, o, touched) && SameBut(st, st', touched)
    ensures Settles(st', o)
  {
    var n: nat, k: nat :| RunSettles(st, o, n, k) && RoundsTouch(st, n, k + 1) !! touched;
    SettlesFrame(st, st', o, RoundsTouch(st, n, k + 1));
  }

  // A variable with no variants, no operators and no references.
  predicate IsPlain(st: Store, v: string, text: string) {
    && RecordsOf(st, v) == [] && FlagsOf(st, v).content == Some(text) && !HasRef(text)
    && FlagsOf(st, v).appends == [] && FlagsOf(st, v).prepends == [] && FlagsOf(st, v).removes == []
  }

  lemma {:induction false} PlainEval(st: Store, o: seq<string>, v: string, text: string)
    requires IsPlain(st, v, text)
    ensures Eval(st, o, 1, v) == Ok(Entry(Some(text), Some(text), {}, {}))
  {
    NothingToChoose(o);
    assert EvalVariant(st, o, 0, None) == Ok(NOTHING);
    assert ActiveTexts([], o) == {};
  }

  // A plain OVERRIDES settles on its own segments.
  lemma {:induction false} PlainSettles(st: Store, text: string)
    requires IsPlain(st, "OVERRIDES", text)
    ensures Settles(st, Split(text, ':'))
  {
    var o := Split(text, ':');
    PlainEval(st, [], "OVERRIDES", text);
    PlainEval(st, o, "OVERRIDES", text);
    FirstRound(st);
    NextRound(st, 0, [], Entry(Some(text), Some(text), {}, {}));
    NextRound(st, 1, o, Entry(Some(text), Some(text), {}, {}));
    assert SettlesAt(st, o, 1);
  }

  // `delVar` never makes the overrides settle again, so after deleting OVERRIDES itself the ones in
  // force are no longer those that OVERRIDES settles on.
  lemma {:induction false} DelLeavesOverridesStale(st: Store, text: string)
    requires IsPlain(st, "OVERRIDES", text) && text != ""
    ensures Settles(st, Split(text, ':'))
    ensures !Settles(AfterDel(st, "OVERRIDES"), Split(text, ':'))
  {
    hide Split, Join, Settles, Eval, AfterDel;
    var after := AfterDel(st, "OVERRIDES");
    PlainSettles(st, text);
    DeletedIsGone(st, "OVERRIDES");
    NothingSettles(after);
    JoinSplit(text, ':');
    JoinSplit("", ':');
    if Settles(after, Split(text, ':')) {
      SettlesIsFunctional(after, Split(text, ':'), Split("", ':'));
    }
  }

  lemma {:induction false} DeletedIsGone(st: Store, v: string)
    requires ':' !in v
    ensures FlagsOf(AfterDel(st, v), v) == NO_FLAGS && RecordsOf(AfterDel(st, v), v) == []
  {
    assert LastColon(v) == None;
  }

  lemma {:induction false} NothingSettles(st: Store)
    requires FlagsOf(st, "OVERRIDES") == NO_FLAGS && RecordsOf(st, "OVERRIDES") == []
    ensures Settles(st, Split("", ':'))
  {
    var o := Split("", ':');
    forall p: seq<string> ensures Reads(st, p, "OVERRIDES", NOTHING) {
      NothingToChoose(p);
      assert ActiveTexts([], p) == {};
      assert Eval(st, p, 1, "OVERRIDES") == Ok(NOTHING);
    }
    FirstRound(st);
    NextRound(st, 0, [], NOTHING);
    NextRound(st, 1, o, NOTHING);
    assert SettlesAt(st, o, 1);
  }

  // ----- writing and reading back -----

  // What the unexpanded read of `v` gives.
  ghost predicate ReadsRaw(st: Store, overrides: seq<string>, v: string, raw: Option<string>) {
    exists variant :: VariantIs(st, overrides, v, variant) && raw == RawFrom(FlagsOf(st, v), variant.raw, overrides)
  }

  // After a plain write, `v` has no variants and no operators left.
  ghost predicate Holds(st: Store, v: string, text: string) {
    && RecordsOf(st, v) == [] && FlagsOf(st, v).content == Some(text)
    && FlagsOf(st, v).appends == [] && FlagsOf(st, v).prepends == [] && FlagsOf(st, v).removes == []
  }

  // Deleting variables clears their flags and leaves all others alone.
  lemma {:induction false} DelsClear(st: Store, names: seq<string>, v: string)
    ensures FlagsOf(AfterDels(st, names), v) == if v in names then NO_FLAGS else FlagsOf(st, v)
    decreases |names|
  {
    if names != [] {
      DelsClear(AfterDel(st, names[0]), names[1..], v);
    }
  }

  lemma {:induction false} ClearedHoldsNothing(st: Store, v: string, overrides: seq<string>)
    ensures var f := FlagsOf(Cleared(st, v, overrides), v); f.appends == [] && f.prepends == [] && f.removes == []
    ensures RecordsOf(Cleared(st, v, overrides), v) == []
  {
    if v in st.recorded {
      DelsClear(WithoutOpsOn(st, v), ActiveNames(st.recorded[v], overrides), v);
    }
  }

  // After a plain `setVar(v, x)` the unexpanded value of `v` is x, whatever appends, prepends,
  // removes or variants there were and whatever the overrides are or become.
  lemma {:induction false} SetReadsBack(st: Store, v: string, text: string, used: seq<string>, overrides: seq<string>)
    requires ParseName(v).None?
    ensures var after := AfterSetVar(st, v, text, false, used);
      Holds(after, v, text) && forall raw :: ReadsRaw(after, overrides, v, raw) <==> raw == Some(text)
  {
    var cleared := Cleared(st, v, used);
    ClearedHoldsNothing(st, v, used);
    NotItsOwnKey(cleared.recorded, v);
    var after := AfterSetVar(st, v, text, false, used);
    assert FlagsOf(after, v) == FlagsOf(cleared, v).(content := Some(text));
    NothingToChoose(overrides);
    assert VariantIs(after, overrides, v, NOTHING);
  }

  // Recording `v` adds entries for shorter names only.
  lemma {:induction false} NotItsOwnKey(recorded: map<string, seq<Record>>, v: string)
    ensures v in recorded ==> v in RecordName(recorded, v) && RecordName(recorded, v)[v] == recorded[v]
    ensures v !in recorded ==> v !in RecordName(recorded, v)
  {
    RecordNameTouches(recorded, v);
    assert forall k :: k in RecordKeys(v) ==> |k| < |v|;
  }

  // ----- appends and prepends after a write -----

  // `appendVar` and `prependVar` with their texts.
  datatype Edit = AppendText(text: string) | PrependText(text: string)

  function AfterEdits(st: Store, v: string, edits: seq<Edit>): Store
    decreases |edits|
  {
    if edits == [] then st
    else AfterEdits(match edits[0]
      case AppendText(text) => AfterSetVar(st, v + ":append", text, true, [])
      case PrependText(text) => AfterSetVar(st, v + ":prepend", text, true, []), v, edits[1..])
  }

  // a1 + .. + an
  function Appended(edits: seq<Edit>): string {
    if edits == [] then ""
    else (match edits[0] case AppendText(text) => text case PrependText(_) => "") + Appended(edits[1..])
  }

  // pm + .. + p1
  function Prepended(edits: seq<Edit>): string {
    if edits == [] then ""
    else Prepended(edits[1..]) + match edits[0] case AppendText(_) => "" case PrependText(text) => text
  }

  function TextsOf(ops: seq<Op>): string {
    if ops == [] then "" else ops[0].text + TextsOf(ops[1..])
  }

  function TextsBackwards(ops: seq<Op>): string {
    if ops == [] then "" else TextsBackwards(ops[1..]) + ops[0].text
  }

  predicate Unconditional(ops: seq<Op>) {
    forall op :: op in ops ==> op.cond == ""
  }

  lemma {:induction false} AppendAllTexts(x: string, ops: seq<Op>, overrides: seq<string>)
    requires Unconditional(ops)
    ensures AppendAll(Some(x), ops, overrides) == Some(x + TextsOf(ops))
    decreases |ops|
  {
    if ops == [] {
      assert x + "" == x;
    } else {
      AppendAllTexts(x + ops[0].text, ops[1..], overrides);
      assert x + ops[0].text + TextsOf(ops[1..]) == x + TextsOf(ops);
    }
  }

  lemma {:induction false} PrependAllTexts(x: string, ops: seq<Op>, overrides: seq<string>)
    requires Unconditional(ops)
    ensures PrependAll(Some(x), ops, overrides) == Some(TextsBackwards(ops) + x)
    decreases |ops|
  {
    if ops == [] {
      assert "" + x == x;
    } else {
      PrependAllTexts(ops[0].text + x, ops[1..], overrides);
      assert TextsBackwards(ops[1..]) + (ops[0].text + x) == TextsBackwards(ops) + x;
    }
  }

  lemma {:induction false} TextsOfSnoc(ops: seq<Op>, op: Op)
    ensures TextsOf(ops + [op]) == TextsOf(ops) + op.text
    ensures TextsBackwards(ops + [op]) == op.text + TextsBackwards(ops)
    decreases |ops|
  {
    if ops == [] {
      assert ops + [op] == [op] && [op][1..] == [];
    } else {
      assert (ops + [op])[0] == ops[0] && (ops + [op])[1..] == ops[1..] + [op];
      TextsOfSnoc(ops[1..], op);
      assert ops[0].text + (TextsOf(ops[1..]) + op.text) == TextsOf(ops) + op.text;
      assert (op.text + TextsBackwards(ops[1..])) + ops[0].text == op.text + TextsBackwards(ops);
    }
  }

  // `v` has content x, unconditional operators and no variants.
  predicate Builds(st: Store, v: string, x: string) {
    var f := FlagsOf(st, v);
    && RecordsOf(st, v) == [] && f.content.Some? && Unconditional(f.appends) && Unconditional(f.prepends)
    && x == TextsBackwards(f.prepends) + f.content.value + TextsOf(f.appends)
  }

  lemma {:induction false} BuildsReads(st: Store, v: string, x: string, overrides: seq<string>)
    requires Builds(st, v, x)
    ensures forall raw :: ReadsRaw(st, overrides, v, raw) <==> raw == Some(x)
  {
    hide TextsOf, TextsBackwards, AppendAll, PrependAll;
    var f := FlagsOf(st, v);
    NothingToChoose(overrides);
    AppendAllTexts(f.content.value, f.appends, overrides);
    PrependAllTexts(f.content.value + TextsOf(f.appends), f.prepends, overrides);
    assert TextsBackwards(f.prepends) + (f.content.value + TextsOf(f.appends)) == x;
    assert VariantIs(st, overrides, v, NOTHING);
  }

  lemma {:induction false} BuildsOnce(st: Store, v: string, x: string, keyword: Keyword, text: string)
    requires Builds(st, v, x) && ParseName(v).None? && keyword != Remove
    ensures Builds(AfterSetVar(st, v + Suffix(keyword), text, true, []), v, if keyword == Append then x + text
      else text + x)
  {
    hide ParseFrom, RecordName, TextsOf, TextsBackwards;
    OperatorIsParsed(v, keyword, 0);
    NotItsOwnKey(st.recorded, v);
    var f := FlagsOf(st, v);
    TextsOfSnoc(f.appends, Op(text, ""));
    TextsOfSnoc(f.prepends, Op(text, ""));
    var (pre, mid, post) := (TextsBackwards(f.prepends), f.content.value, TextsOf(f.appends));
    assert text + pre + mid + post == text + (pre + mid + post);
    assert pre + mid + (post + text) == pre + mid + post + text;
  }

  lemma {:induction false} EditsBuild(st: Store, v: string, x: string, edits: seq<Edit>)
    requires Builds(st, v, x) && ParseName(v).None?
    ensures Builds(AfterEdits(st, v, edits), v, Prepended(edits) + x + Appended(edits))
    decreases |edits|
  {
    hide Builds, AfterSetVar, ParseFrom;
    if edits == [] {
      assert "" + x + "" == x;
    } else {
      var (pre, post) := (Prepended(edits[1..]), Appended(edits[1..]));
      match edits[0]
      case AppendText(text) =>
        BuildsOnce(st, v, x, Append, text);
        EditsBuild(AfterSetVar(st, v + ":append", text, true, []), v, x + text, edits[1..]);
        assert pre + (x + text) + post == (pre + "") + x + (text + post);
      case PrependText(text) =>
        BuildsOnce(st, v, x, Prepend, text);
        EditsBuild(AfterSetVar(st, v + ":prepend", text, true, []), v, text + x, edits[1..]);
        assert pre + (text + x) + post == (pre + text) + x + ("" + post);
    }
  }

  // After `setVar(v, x)`, appends a1 .. an and prepends p1 .. pm in any interleaving, the
  // unexpanded value is pm .. p1 x a1 .. an, under any overrides.
  lemma {:induction false} EditsReadBack(st: Store, v: string, x: string, used: seq<string>, edits: seq<Edit>,
                                         overrides: seq<string>)
    requires ParseName(v).None?
    ensures var after := AfterEdits(AfterSetVar(st, v, x, false, used), v, edits);
      forall raw :: ReadsRaw(after, overrides, v, raw) <==> raw == Some(Prepended(edits) + x + Appended(edits))
  {
    SetReadsBack(st, v, x, used, overrides);
    var after := AfterSetVar(st, v, x, false, used);
    assert TextsBackwards([]) + x + TextsOf([]) == x;
    EditsBuild(after, v, x, edits);
    BuildsReads(AfterEdits(after, v, edits), v, Prepended(edits) + x + Appended(edits), overrides);
  }

  // ----- removes after a write -----

  // The words that the active `:remove` operations of `v` name.
  function NamedWords(f: Flags, overrides: seq<string>): set<string> {
    set r, w | r in ActiveTexts(f.removes, overrides) && w in FieldSet(r) :: w
  }

  predicate PlainOps(ops: seq<Op>) {
    forall op :: op in ops ==> !HasRef(op.text)
  }

  // One more `:remove` changes nothing but the words to remove.
  lemma {:induction false} RemoveBuilds(st: Store, v: string, x: string, text: string, cond: string)
    requires Builds(st, v, x)
    ensures var after := AfterOp(st, OpName(v, Remove, cond), text);
      Builds(after, v, x) && FlagsOf(after, v).removes == FlagsOf(st, v).removes + [Op(text, cond)]
  {
    NotItsOwnKey(st.recorded, v);
  }

  // Reading drops exactly the words named by the removes in effect, those handed on by the variant
  // among them, and keeps the other words and all whitespace of the expanded value in order.
  lemma {:induction false} RemovesTakeEffect(st: Store, v: string, overrides: seq<string>, variant: Entry,
                                             value: Option<string>,
                                             refs: set<string>, words: map<string, set<string>>, e: Entry)
    requires VariantIs(st, overrides, v, variant)
    requires OptionExpandsTo(st, overrides, v, RawFrom(FlagsOf(st, v), variant.raw, overrides), value, refs)
    requires OrEmpty(value) != "" ==>
      WordsAre(st, overrides, variant.removes + ActiveTexts(FlagsOf(st, v).removes, overrides), words)
    requires Reads(st, overrides, v, e)
    ensures e.raw == RawFrom(FlagsOf(st, v), variant.raw, overrides) && e.refs == refs && e.value.Some? == value.Some?
    ensures value.Some? ==>
      && Fields(e.value.value) == Keep(Fields(value.value), Gone(words)) && Spaces(e.value.value) == Spaces(value.value)
  {
    hide Eval, Spaces, Keep, Drop;
    var raw := RawFrom(FlagsOf(st, v), variant.raw, overrides);
    ReadAll(st, overrides, v, variant, value, refs, words);
    ReadsIsFunctional(st, overrides, v, e, Assemble(raw, value, refs, words));
    if value.Some? {
      DropIsExact(value.value, Gone(words));
      if value.value == "" || words == map[] {
        DropNothing(value.value, Gone(words));
      }
    }
  }

  // In particular for a value that was written and built up without references: the words are those
  // that the active removes name literally.
  lemma {:induction false} RemovesReadBack(st: Store, v: string, x: string, overrides: seq<string>, e: Entry)
    requires Builds(st, v, x) && !HasRef(x) && PlainOps(FlagsOf(st, v).removes)
    requires Reads(st, overrides, v, e)
    ensures var gone := NamedWords(FlagsOf(st, v), overrides);
      && e.raw == Some(x) && e.value.Some?
      && Fields(e.value.value) == Keep(Fields(x), gone) && Spaces(e.value.value) == Spaces(x)
  {
    hide Eval, Spaces, Keep, Drop;
    BuildsReads(st, v, x, overrides);
    PlainReadBack(st, v, x, overrides, e);
  }

  lemma {:induction false} PlainReadBack(st: Store, v: string, x: string, overrides: seq<string>, e: Entry)
    requires RecordsOf(st, v) == [] && !HasRef(x) && PlainOps(FlagsOf(st, v).removes)
    requires forall raw :: ReadsRaw(st, overrides, v, raw) <==> raw == Some(x)
    requires Reads(st, overrides, v, e)
    ensures var gone := NamedWords(FlagsOf(st, v), overrides);
      && e.raw == Some(x) && e.value.Some?
      && Fields(e.value.value) == Keep(Fields(x), gone) && Spaces(e.value.value) == Spaces(x)
  {
    hide Eval, Spaces, Keep, Drop;
    var words := OwnWords(st, overrides, FlagsOf(st, v));
    NothingToChoose(overrides);
    assert VariantIs(st, overrides, v, NOTHING);
    assert ReadsRaw(st, overrides, v, RawFrom(FlagsOf(st, v), None, overrides));
    ExpandPlain(st, overrides, v, x);
    RemovesTakeEffect(st, v, overrides, NOTHING, Some(x), {}, words, e);
  }

  lemma {:induction false} OwnWords(st: Store, overrides: seq<string>, f: Flags)
      returns (words: map<string, set<string>>)
    requires PlainOps(f.removes)
    ensures WordsAre(st, overrides, NOTHING.removes + ActiveTexts(f.removes, overrides), words)
    ensures Gone(words) == NamedWords(f, overrides)
  {
    var removes := ActiveTexts(f.removes, overrides);
    words := map r | r in removes :: FieldSet(r);
    assert NOTHING.removes + removes == removes;
    forall r | r in removes ensures WordsOf(st, overrides, r, words[r]) {
      ExpandPlain(st, overrides, "", r);
    }
    WordsTogether(st, overrides, words);
    assert words.Keys == removes;
    assert forall w :: w in Gone(words) <==> w in NamedWords(f, overrides);
  }

  // ----- recorded variants -----

  lemma {:induction false} RecordVariant(recorded: map<string, seq<Record>>, k: string, o: string)
    requires ':' !in k && ':' !in o && IsOverride(o)
    ensures RecordName(recorded, k + ":" + o) == AddRecord(recorded, k, Record(k + ":" + o, o))
  {
    var v := k + ":" + o;
    LastColonIs(k, o);
    assert v[..|k|] == k && v[|k| + 1..] == o;
  }

  lemma {:induction false} LastColonIs(s: string, t: string)
    requires ':' !in t
    ensures LastColon(s + ":" + t) == Some(|s|)
    decreases |t|
  {
    var v := s + ":" + t;
    if t != "" {
      assert v[..|v| - 1] == s + ":" + t[..|t| - 1];
      LastColonIs(s, t[..|t| - 1]);
    }
  }

  lemma {:induction false} OnlyKeyWins(o: string, name: string)
    ensures Walk(Dict([o], map[o := name]), None, [o]) == Some(name)
  {
    var p := Scan(Dict([o], map[o := name]), None, false);
    var todo := [o];
    assert todo[0] == o && todo[1..] == [] && !EndsWith(o, ":" + o);
    var q := ScanKey(p, o, o);
    assert ScanKeys(p, o, todo) == ScanKeys(q, o, todo[1..]) == q;
    assert Pass(p, todo) == Pass(q, todo[1..]) == q;
  }

  // ----- writes after which what was read before is wrong -----

  lemma {:induction false} ReadsGiveRaw(st: Store, overrides: seq<string>, v: string, e: Entry)
    requires Reads(st, overrides, v, e)
    ensures ReadsRaw(st, overrides, v, e.raw)
  {
    var n: nat :| Eval(st, overrides, n, v) == Ok(e);
    var chosen := Chosen(RecordsOf(st, v), overrides);
    var found := EvalVariant(st, overrides, n - 1, chosen);
    assert found.Ok?;
    assert chosen.Some? ==> Eval(st, overrides, n - 1, chosen.value) == found;
    assert VariantIs(st, overrides, v, found.value);
    assert EvalFrom(st, overrides, n - 1, v, found.value) == Ok(e);
  }

  // An entry for `v` that was read before a plain write of `v`, and that the cache still holds
  // after it, is right only if it happens to hold the value written.
  lemma {:induction false} EntryFromBeforeIsStale(st: Store, v: string, text: string, used: seq<string>,
                                                  overrides: seq<string>, e: Entry)
    requires ParseName(v).None? && e.raw != Some(text)
    ensures !Reads(AfterSetVar(st, v, text, false, used), overrides, v, e)
  {
    var after := AfterSetVar(st, v, text, false, used);
    SetReadsBack(st, v, text, used, overrides);
    if Reads(after, overrides, v, e) {
      ReadsGiveRaw(after, overrides, v, e);
    }
  }

  // Writing a variant of a watched variable does not make the overrides settle again, though
  // settling looks at it: with OVERRIDES = foo, a write of `OVERRIDES:foo` leaves [foo] in force,
  // on which OVERRIDES does not settle any more.
  lemma {:induction false} VariantOfWatchedIsMissed(st: Store, text: string)
    requires IsPlain(st, "OVERRIDES", "foo") && "OVERRIDES:foo" !in st.vars && "OVERRIDES:foo" !in st.recorded
    requires ':' !in text && !HasRef(text) && text != "foo"
    ensures Settles(st, ["foo"])
    ensures !Settles(WithContent(st, "OVERRIDES:foo", text), ["foo"])
  {
    var after := WithContent(st, "OVERRIDES:foo", text);
    assert Split("foo", ':') == ["foo"] && Split(text, ':') == [text];
    PlainSettles(st, "foo");
    VariantHoldsText(st, text);
    if Settles(after, ["foo"]) {
      SettledIsFixedPoint(after, ["foo"]);
      var e :| Reads(after, ["foo"], "OVERRIDES", e) && SplitOverrides(e.value) == ["foo"];
      ReadsIsFunctional(after, ["foo"], "OVERRIDES", e, Entry(Some(text), Some(text), {}, {}));
    }
  }

  lemma {:induction false} VariantHoldsText(st: Store, text: string)
    requires IsPlain(st, "OVERRIDES", "foo") && "OVERRIDES:foo" !in st.vars && "OVERRIDES:foo" !in st.recorded
    requires !HasRef(text)
    ensures Reads(WithContent(st, "OVERRIDES:foo", text), ["foo"], "OVERRIDES", Entry(Some(text), Some(text), {}, {}))
  {
    hide Eval, Chosen, RecordName, HasRef;
    var v := "OVERRIDES:foo";
    var after := WithContent(st, v, text);
    assert v == "OVERRIDES" + ":" + "foo" && v[9] == ':';
    RecordVariant(st.recorded, "OVERRIDES", "foo");
    assert RecordsOf(after, "OVERRIDES") == [Record(v, "foo")];
    OneRecordWins(Record(v, "foo"), "foo");
    assert |v| != |"OVERRIDES"|;
    PlainEval(after, ["foo"], v, text);
    VariantTakesOver(after, ["foo"], "OVERRIDES", v, text);
  }

  lemma {:induction false} VariantTakesOver(st: Store, overrides: seq<string>, v: string, variant: string, text: string)
    requires Chosen(RecordsOf(st, v), overrides) == Some(variant) && IsPlain(st, variant, text)
    requires FlagsOf(st, v).appends == [] && FlagsOf(st, v).prepends == [] && FlagsOf(st, v).removes == []
    ensures Reads(st, overrides, v, Entry(Some(text), Some(text), {}, {}))
  {
    PlainEval(st, overrides, variant, text);
    var e := Entry(Some(text), Some(text), {}, {});
    assert Reads(st, overrides, variant, e);
    assert VariantIs(st, overrides, v, e);
    ExpandPlain(st, overrides, v, text);
    assert e.removes + ActiveTexts(FlagsOf(st, v).removes, overrides) == {};
    NoWords(st, overrides);
    ReadAll(st, overrides, v, e, Some(text), {}, map[]);
  }

  lemma {:induction false} OneRecordWins(r: Record, o: string)
    requires r.cond == o && ':' !in o && o != ""
    ensures Chosen([r], [o]) == Some(r.name)
  {
    assert [r][1..] == [] && [] + [o] == [o];
    assert Collect(EMPTY, [r], [o]) == Dict([o], map[o := r.name]);
    OnlyKeyWins(o, r.name);
  }

  lemma {:induction false} NoColonNoOperator(v: string, i: nat)
    requires ':' !in v
    ensures ParseFrom(v, i).None?
    decreases |v| - i
  {
    if i < |v| {
      assert ":append"[0] == ':' && ":prepend"[0] == ':' && ":remove"[0] == ':' && v[i..][0] == v[i];
      NoColonNoOperator(v, i + 1);
    }
  }

  // `v:append` and the like name the operator whenever `v` itself holds none.
  lemma {:induction false} OperatorIsParsed(v: string, keyword: Keyword, i: nat)
    requires i <= |v| && ParseFrom(v, i).None?
    ensures ParseFrom(v + Suffix(keyword), i) == Some(OpName(v, keyword, ""))
  {
    assert v + Suffix(keyword) + "" == v + Suffix(keyword);
    OperatorIsFound(v, keyword, "", i);
  }

  // The same with more behind it, if that is a condition.
  lemma {:induction false} OperatorIsFound(v: string, keyword: Keyword, tail: string, i: nat)
    requires i <= |v| && ParseFrom(v, i).None?
    ensures var r := ParseFrom(v + Suffix(keyword) + tail, i);
      if Condition(tail).Some? then r == Some(OpName(v, keyword, Condition(tail).value))
      else r.Some? ==> |r.value.base| > |v|
    decreases |v| - i
  {
    hide KeywordAt, Condition;
    var w := v + Suffix(keyword) + tail;
    if i == |v| {
      SuffixIsParsed(keyword, tail);
      assert w[i..] == Suffix(keyword) + tail && w[..i] == v;
      if Condition(tail).None? { LaterBase(w, i + 1); }
    } else {
      assert w[i..] == v[i..] + (Suffix(keyword) + tail);
      NoOperatorHere(v[i..], Suffix(keyword) + tail);
      OperatorIsFound(v, keyword, tail, i + 1);
    }
  }

  lemma {:induction false} LaterBase(w: string, i: nat)
    ensures ParseFrom(w, i).Some? ==> |ParseFrom(w, i).value.base| >= i
    decreases |w| - i
  {
    if i < |w| {
      LaterBase(w, i + 1);
    }
  }

  lemma {:induction false} SuffixIsParsed(keyword: Keyword, tail: string)
    ensures KeywordAt(Suffix(keyword) + tail) == Some((keyword, tail))
  {
    var (suffix, s) := (Suffix(keyword), Suffix(keyword) + tail);
    assert s[|suffix|..] == tail && s[..|suffix|] == suffix && s[1] == suffix[1];
    assert ":append"[1] == 'a' && ":prepend"[1] == 'p' && ":remove"[1] == 'r';
  }

  function Suffix(keyword: Keyword): string {
    match keyword
    case Append => ":append"
    case Prepend => ":prepend"
    case Remove => ":remove"
  }

  // Text after `s` does not make an operator fit at the start of `s`.
  lemma {:induction false} NoOperatorHere(s: string, suffix: string)
    requires s != "" && suffix != "" && suffix[0] == ':'
    requires KeywordAt(s).Some? ==> Condition(KeywordAt(s).value.1).None?
    ensures var t := s + suffix; KeywordAt(t).Some? ==> Condition(KeywordAt(t).value.1).None?
  {
    KeywordStays(s, suffix);
    if KeywordAt(s).Some? {
      ConditionStaysBad(KeywordAt(s).value.1, suffix);
    }
  }

  lemma {:induction false} ConditionStaysBad(rest: string, suffix: string)
    requires Condition(rest).None?
    ensures Condition(rest + suffix).None?
  {
    var whole := rest + suffix;
    assert rest != "" && whole[0] == rest[0];
    assert forall i | 1 <= i < |rest| :: whole[i] == rest[i];
  }

  lemma {:induction false} KeywordStays(s: string, suffix: string)
    requires s != "" && suffix != "" && suffix[0] == ':'
    ensures KeywordAt(s + suffix) == match KeywordAt(s) case None => None case Some((k, rest)) => Some((k,
      rest + suffix))
  {
    OneKeywordStays(":append", s, suffix);
    OneKeywordStays(":prepend", s, suffix);
    OneKeywordStays(":remove", s, suffix);
  }

  lemma {:induction false} OneKeywordStays(k: string, s: string, suffix: string)
    requires s != "" && suffix != "" && suffix[0] == ':'
    requires forall j :: 1 <= j < |k| ==> k[j] != ':'
    ensures k <= s + suffix <==> k <= s
    ensures k <= s ==> (s + suffix)[|k|..] == s[|k|..] + suffix
  {
    var t := s + suffix;
    if k <= t {
      assert t[|s|] == ':' && forall j | 0 <= j < |k| :: t[j] == k[j];
      assert |k| <= |s|;
      assert k == t[..|k|] == s[..|k|];
    }
    if k <= s {
      assert t[..|k|] == s[..|k|];
    }
  }
}
