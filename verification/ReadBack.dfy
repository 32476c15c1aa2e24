// What is read after variants, weak defaults and values with references have been written
// (data_smart.py:108-118, 542-623, 713-762, 789-861).
module ReadBack {
  import opened Prelude
  import opened Text
  import opened OverrideScan
  import opened OverrideOrder
  import opened OverrideChoice
  import opened OverrideNames
  import opened Expansion
  import opened EvalSteps
  import opened StoreOps
  import opened StoreLaws
  import opened RenameVariants

  // ----- variants -----

  // An override starts with a lower-case letter or a digit.
  predicate StartsAsOverride(o: string) {
    o != "" && o[0] in "abcdefghijklmnopqrstuvwxyz0123456789"
  }

  lemma StartsIsOverride(o: string)
    requires StartsAsOverride(o)
    ensures IsOverride(o)
  {
    var s := "abcdefghijklmnopqrstuvwxyz0123456789";
    assert |s| == 36 && forall i :: 0 <= i < 36 ==> 'a' <= s[i] <= 'z' || '0' <= s[i] <= '9';
  }

  // With one recorded override, it is picked exactly when it is in force.
  lemma {:induction false} OnlyRecord(r: Record, overrides: seq<string>)
    requires NoColons(overrides) && ':' !in r.cond
    ensures Chosen([r], overrides) == if r.cond in overrides then Some(r.name) else None
  {
    hide Chosen;
    assert Segments(r.cond) == [r.cond];
    assert [r][0] == r && r in [r];
    ChosenIsWinner([r], overrides);
    ChosenIsRecorded([r], overrides);
  }

  // `k` has this content, and neither operators nor variants.
  predicate StandsAlone(st: Store, k: string, text: string) {
    && FlagsOf(st, k) == Flags(Some(text), None, [], [], [], map[]) && RecordsOf(st, k) == []
  }

  lemma {:induction false} AloneReads(st: Store, overrides: seq<string>, k: string, text: string)
    requires StandsAlone(st, k, text)
    ensures ReadsRaw(st, overrides, k, Some(text))
    ensures forall raw :: ReadsRaw(st, overrides, k, raw) ==> raw == Some(text)
    ensures !HasRef(text) ==> Reads(st, overrides, k, Entry(Some(text), Some(text), {}, {}))
  {
    hide HasRef;
    NothingToChoose(overrides);
    assert VariantIs(st, overrides, k, NOTHING);
    assert RawFrom(FlagsOf(st, k), None, overrides) == Some(text);
    if !HasRef(text) { PlainEval(st, overrides, k, text); }
  }

  // No variant is picked.
  lemma {:induction false} OwnValueReads(st: Store, overrides: seq<string>, k: string, own: string)
    requires FlagsOf(st, k) == Flags(Some(own), None, [], [], [], map[]) && Chosen(RecordsOf(st, k), overrides) == None
    ensures forall raw :: ReadsRaw(st, overrides, k, raw) ==> raw == Some(own)
    ensures !HasRef(own) ==> Reads(st, overrides, k, Entry(Some(own), Some(own), {}, {}))
  {
    hide HasRef, Chosen;
    assert VariantIs(st, overrides, k, NOTHING);
    if !HasRef(own) {
      ExpandPlain(st, overrides, k, own);
      assert NOTHING.removes + ActiveTexts(FlagsOf(st, k).removes, overrides) == {};
      NoWords(st, overrides);
      ReadAll(st, overrides, k, NOTHING, Some(own), {}, map[]);
    }
  }

  // ----- what a plain write clears -----

  // `v` has a variant of this name all of whose segments are in force.
  ghost predicate IsActiveVariant(st: Store, v: string, name: string, overrides: seq<string>) {
    exists r :: r in RecordsOf(st, v) && r.name == name && forall s :: s in Split(r.cond, ':') ==> s in overrides
  }

  // A plain write removes the active variants of the variable, and no other; it has no operators and no
  // variants then.
  lemma {:induction false} ActiveVariantsGo(st: Store, v: string, x: string, used: seq<string>)
    requires ParseName(v).None? && NoColons(used)
    ensures var after := AfterSetVar(st, v, x, false, used);
      && (forall k :: k != v ==>
        FlagsOf(after, k) == if IsActiveVariant(st, v, k, used) then NO_FLAGS else FlagsOf(st, k))
      && RecordsOf(after, v) == [] && FlagsOf(after, v).content == Some(x)
      && FlagsOf(after, v).appends == FlagsOf(after, v).prepends == FlagsOf(after, v).removes == []
  {
    hide ParseFrom, RecordName, AfterDels, IsActiveVariant;
    var names := ActiveNames(RecordsOf(st, v), used);
    var (bare, cleared) := (WithoutOpsOn(st, v), Cleared(st, v, used));
    DeletedAre(bare, names);
    forall k ensures k in names <==> IsActiveVariant(st, v, k, used) {
      ActiveIsNamed(st, v, k, used);
    }
    assert forall k :: k != v ==> FlagsOf(bare, k) == FlagsOf(st, k);
    assert forall k :: FlagsOf(cleared, k) == if k in names then NO_FLAGS else FlagsOf(bare, k);
    NotItsOwnKey(cleared.recorded, v);
  }

  lemma {:induction false} ActiveIsNamed(st: Store, v: string, name: string, overrides: seq<string>)
    requires NoColons(overrides)
    ensures name in ActiveNames(RecordsOf(st, v), overrides) <==> IsActiveVariant(st, v, name, overrides)
  {
    ActiveNamesAre(RecordsOf(st, v), overrides, name);
  }

  lemma {:induction false} ActiveNamesAre(records: seq<Record>, overrides: seq<string>, name: string)
    requires NoColons(overrides)
    ensures name in ActiveNames(records, overrides) <==>
      exists r :: r in records && r.name == name && forall s :: s in Split(r.cond, ':') ==> s in overrides
  {
    if records != [] {
      AppliesIsWithin(records[0].cond, overrides);
      ActiveNamesAre(records[1..], overrides, name);
      assert records == [records[0]] + records[1..];
    }
  }

  lemma {:induction false} DeletedAre(st: Store, names: seq<string>)
    ensures forall k :: FlagsOf(AfterDels(st, names), k) == if k in names then NO_FLAGS else FlagsOf(st, k)
    decreases |names|
  {
    hide UnrecordName;
    if names != [] {
      DeletedAre(AfterDel(st, names[0]), names[1..]);
    }
  }

  // ----- weak defaults -----

  lemma {:induction false} WeakReads(st: Store, v: string, text: string, overrides: seq<string>)
    requires FlagsOf(st, v).weak == Some(text) && FlagsOf(st, v).content == None && RecordsOf(st, v) == []
    requires FlagsOf(st, v).appends == [] && FlagsOf(st, v).prepends == []
    ensures forall raw :: ReadsRaw(st, overrides, v, raw) <==> raw == Some(text)
  {
    NothingToChoose(overrides);
    assert VariantIs(st, overrides, v, NOTHING);
  }

  // A weak default is read as long as there is no content, and only then.
  lemma {:induction false} WeakReadsBack(st: Store, v: string, text: string, content: Option<string>,
                                         overrides: seq<string>)
    requires FlagsOf(st, v).content == content && RecordsOf(st, v) == []
    requires FlagsOf(st, v).appends == [] && FlagsOf(st, v).prepends == []
    ensures forall raw :: ReadsRaw(AfterWeak(st, v, text), overrides, v, raw) <==>
      raw == Some(if content.Some? then content.value else text)
  {
    hide RecordName;
    NotItsOwnKey(st.recorded, v);
    NothingToChoose(overrides);
    assert VariantIs(AfterWeak(st, v, text), overrides, v, NOTHING);
  }

  lemma {:induction false} WeakIsWritten(st: Store, k: string, o: string, own: string, x: string)
    requires ':' !in k && ':' !in o && IsOverride(o)
    requires StandsAlone(st, k, own) && RecordsOf(st, Variant(k, o)) == [] && FlagsOf(st, Variant(k, o)) == NO_FLAGS
    ensures var (w, after) := (Variant(k, o), AfterWeak(st, Variant(k, o), x));
      && FlagsOf(after, w) == NO_FLAGS.(weak := Some(x)) && RecordsOf(after, w) == []
      && FlagsOf(after, k) == FlagsOf(st, k) && RecordsOf(after, k) == [Record(w, o)]
  {
    hide RecordName;
    var w := Variant(k, o);
    assert |w| > |k|;
    RecordVariant(st.recorded, k, o);
    assert w == k + ":" + o && [] + [Record(w, o)] == [Record(w, o)];
  }

  // The weak default of `k:o` makes a variant of `k` just as a value does.
  lemma {:induction false} WeakVariantReadsBack(st: Store, k: string, o: string, own: string, x: string,
                                                overrides: seq<string>)
    requires ':' !in k && ':' !in o && StartsAsOverride(o) && NoColons(overrides)
    requires StandsAlone(st, k, own) && RecordsOf(st, Variant(k, o)) == [] && FlagsOf(st, Variant(k, o)) == NO_FLAGS
    ensures var text := if o in overrides then x else own;
      forall raw :: ReadsRaw(AfterWeak(st, Variant(k, o), x), overrides, k, raw) ==> raw == Some(text)
  {
    StartsIsOverride(o);
    hide StartsAsOverride, Chosen, Eval, RecordName, AfterWeak;
    var w := Variant(k, o);
    var after := AfterWeak(st, w, x);
    WeakIsWritten(st, k, o, own, x);
    OnlyRecord(Record(w, o), overrides);
    if o in overrides {
      WeakReads(after, w, x, overrides);
      forall raw | ReadsRaw(after, overrides, k, raw) ensures raw == Some(x) {
        var variant :| VariantIs(after, overrides, k, variant)
          && raw == RawFrom(FlagsOf(after, k), variant.raw, overrides);
        ReadsGiveRaw(after, overrides, w, variant);
      }
    } else {
      OwnValueReads(after, overrides, k, own);
    }
  }

  // ----- references -----

  lemma {:induction false} NameEndsAt(k: string, rest: string)
    requires forall i :: 0 <= i < |k| ==> IsNameChar(k[i])
    ensures NameEnd(k + "}" + rest) == |k|
  {
    var s := k + "}" + rest;
    if k == "" {
      assert s[0] == '}';
    } else {
      assert s[1..] == k[1..] + "}" + rest;
      NameEndsAt(k[1..], rest);
    }
  }

  // The characters of a name in a reference.
  const LOWER := "abcdefghijklmnopqrstuvwxyz"
  const UPPER := "ABCDEFGHIJKLMNOPQRSTUVWXYZ"
  const DIGITS := "0123456789"
  const OTHERS := "-_+./~:"

  predicate IsName(k: string) {
    k != "" && forall i :: 0 <= i < |k| ==> k[i] in LOWER || k[i] in UPPER || k[i] in DIGITS || k[i] in OTHERS
  }

  predicate InRange(s: string, low: char, high: char) {
    forall j :: 0 <= j < |s| ==> low <= s[j] <= high
  }

  lemma CharsInRange()
    ensures InRange(LOWER, 'a', 'z') && InRange(UPPER, 'A', 'Z') && InRange(DIGITS, '0', '9')
  {
    assert |LOWER| == 26 && |UPPER| == 26 && |DIGITS| == 10;
  }

  lemma NamesAreNames(k: string)
    requires IsName(k)
    ensures forall i :: 0 <= i < |k| ==> IsNameChar(k[i])
  {
    CharsInRange();
    assert forall c | c in LOWER :: IsNameChar(c) by { assert InRange(LOWER, 'a', 'z'); }
    assert forall c | c in UPPER :: IsNameChar(c) by { assert InRange(UPPER, 'A', 'Z'); }
    assert forall c | c in DIGITS :: IsNameChar(c) by { assert InRange(DIGITS, '0', '9'); }
    assert |OTHERS| == 7 && forall j :: 0 <= j < 7 ==> IsNameChar(OTHERS[j]);
  }

  lemma {:induction false} RefInFront(k: string, rest: string)
    requires IsName(k)
    ensures var s := "${" + k + "}" + rest; RefAt(s) == Some(k) && s[|k| + 3..] == rest && HasRef(s)
  {
    hide IsNameChar;
    var s := "${" + k + "}" + rest;
    assert s[2..] == k + "}" + rest && s[..2] == "${" && s[2..2 + |k|] == k;
    NamesAreNames(k);
    NameEndsAt(k, rest);
  }

  lemma {:induction false} SubPlain(st: Store, overrides: seq<string>, name: string, a: string)
    requires !HasRef(a)
    ensures SubsTo(st, overrides, name, a, a, {})
  {
    if a == "" {
      SubNothing(st, overrides, name);
    } else {
      SubPlain(st, overrides, name, a[1..]);
      assert a == a[..1] + a[1..];
      SubChar(st, overrides, name, a, a[1..], {});
    }
  }

  // Text in front of a reference is left alone, and the reference is replaced by the value, or left as it
  // stands if there is none.
  lemma {:induction false} SubAround(st: Store, overrides: seq<string>, name: string, a: string, k: string, b: string,
                                     e: Entry, t: string, refs: set<string>)
    requires !HasRef(a) && IsName(k) && k != name && Reads(st, overrides, k, e)
    requires SubsTo(st, overrides, name, b, t, refs)
    ensures var ref := "${" + k + "}";
      SubsTo(st, overrides, name, a + ref + b, a + (if e.value.Some? then e.value.value else ref) + t, {k} + refs)
  {
    hide SubsTo, Reads, HasRef;
    var ref := "${" + k + "}";
    var y := if e.value.Some? then e.value.value else ref;
    var s := a + ref + b;
    if a == "" {
      RefInFront(k, b);
      NothingInFront(ref, b, y, t);
      SubRef(st, overrides, name, s, k, e, t, refs);
    } else {
      CharInFront(a, ref, b, y, t);
      NoRefBefore(a, ref + b);
      SubAround(st, overrides, name, a[1..], k, b, e, t, refs);
      SubChar(st, overrides, name, s, a[1..] + y + t, {k} + refs);
    }
  }

  lemma NothingInFront(ref: string, b: string, y: string, t: string)
    ensures "" + ref + b == ref + b && (ref + b)[..|ref|] == ref && "" + y + t == y + t
  {}

  lemma CharInFront(a: string, ref: string, b: string, y: string, t: string)
    requires a != ""
    ensures a + ref + b == a + (ref + b) && (a + ref + b)[1..] == a[1..] + ref + b
    ensures (a + ref + b)[..1] == a[..1] && a[..1] + (a[1..] + y + t) == a + y + t
  {}

  lemma {:induction false} NoRefBefore(a: string, rest: string)
    requires a != "" && !HasRef(a) && rest != "" && rest[0] == '$'
    ensures RefAt(a + rest).None? && !HasRef(a[1..])
  {
    var s := a + rest;
    assert if |a| > 1 then s[..2] == a[..2] else s[1] == '$';
  }

  // A variable whose value is text with one reference in it reads as that text with the value put in.
  lemma {:induction false} ReferenceReadsBack(st: Store, overrides: seq<string>, v: string, a: string, k: string,
                                              b: string, e: Entry)
    requires StandsAlone(st, v, a + ("${" + k + "}") + b) && IsName(k) && k != v
    requires Reads(st, overrides, k, e) && e.value.Some? && !HasRef(a) && !HasRef(b) && !HasRef(a + e.value.value + b)
    ensures var s := a + ("${" + k + "}") + b;
      Reads(st, overrides, v, Entry(Some(s), Some(a + e.value.value + b), {k}, {}))
  {
    hide SubsTo, ExpandsTo, Reads, HasRef, Eval;
    var (s, t) := (a + ("${" + k + "}") + b, a + e.value.value + b);
    SubPlain(st, overrides, v, b);
    SubAround(st, overrides, v, a, k, b, e, b, {});
    assert {k} + {} == {k};
    HasRefInside(a, k, b);
    ExpandPlain(st, overrides, v, t);
    ExpandOnce(st, overrides, v, s, t, {k}, t, {});
    NothingToChoose(overrides);
    NoWords(st, overrides);
    assert NOTHING.removes + ActiveTexts([], overrides) == {};
    assert RawFrom(FlagsOf(st, v), None, overrides) == Some(s);
    ReadAll(st, overrides, v, NOTHING, Some(t), {k}, map[]);
  }

  lemma {:induction false} HasRefInside(a: string, k: string, b: string)
    requires IsName(k)
    ensures HasRef(a + ("${" + k + "}") + b)
  {
    hide IsName, RefAt;
    var s := a + ("${" + k + "}") + b;
    if a == "" {
      RefInFront(k, b);
      assert s == "${" + k + "}" + b;
    } else {
      assert s[1..] == a[1..] + ("${" + k + "}") + b;
      HasRefInside(a[1..], k, b);
    }
  }

  // A reference inside a reference: the inner one is replaced first, and gives the name for the outer one.
  lemma {:induction false} NestedReferenceReadsBack(st: Store, overrides: seq<string>, v: string, k: string, m: string,
                                                    inner: Entry, e: Entry)
    requires StandsAlone(st, v, "${" + ("${" + k + "}") + "}") && IsName(k) && IsName(m) && k != v && m != v
    requires Reads(st, overrides, k, inner) && inner.value == Some(m)
    requires Reads(st, overrides, m, e) && e.value.Some? && !HasRef(e.value.value)
    ensures Reads(st, overrides, v, Entry(Some("${" + ("${" + k + "}") + "}"), e.value, {k, m}, {}))
  {
    hide SubsTo, ExpandsTo, Reads, HasRef, Eval;
    var (s, t, u) := ("${" + ("${" + k + "}") + "}", "${" + m + "}", e.value.value);
    InnerFirst(st, overrides, v, k, m, inner);
    OuterThen(st, overrides, v, m, e);
    RefInFront(m, "");
    assert "${" + m + "}" + "" == t;
    ExpandPlain(st, overrides, v, u);
    NotTheValue(t, u);
    ExpandOnce(st, overrides, v, t, u, {m}, u, {});
    NestedHasRef(k, m);
    ExpandOnce(st, overrides, v, s, t, {k}, u, {m} + {});
    NothingToChoose(overrides);
    NoWords(st, overrides);
    assert NOTHING.removes + ActiveTexts([], overrides) == {} && {k} + ({m} + {}) == {k, m};
    assert RawFrom(FlagsOf(st, v), None, overrides) == Some(s);
    ReadAll(st, overrides, v, NOTHING, Some(u), {k, m}, map[]);
  }

  lemma NotTheValue(t: string, u: string)
    requires HasRef(t) && !HasRef(u)
    ensures t != u
  {}

  lemma {:induction false} OuterThen(st: Store, overrides: seq<string>, v: string, m: string, e: Entry)
    requires IsName(m) && m != v && Reads(st, overrides, m, e) && e.value.Some?
    ensures SubsTo(st, overrides, v, "${" + m + "}", e.value.value, {m})
  {
    hide SubsTo, Reads;
    SubNothing(st, overrides, v);
    SubAround(st, overrides, v, "", m, "", e, "", {});
    assert "" + ("${" + m + "}") + "" == "${" + m + "}" && "" + e.value.value + "" == e.value.value && {m} + {} == {m};
  }

  // At the outer "${" no name follows.
  lemma {:induction false} InnerFirst(st: Store, overrides: seq<string>, v: string, k: string, m: string, inner: Entry)
    requires IsName(k) && k != v && Reads(st, overrides, k, inner) && inner.value == Some(m)
    ensures SubsTo(st, overrides, v, "${" + ("${" + k + "}") + "}", "${" + m + "}", {k})
  {
    hide SubsTo, Reads, HasRef;
    var ref := "${" + k + "}";
    var s := "${" + ref + "}";
    assert !HasRef("}") && !HasRef("") by { assert "}"[0] != '$'; NoReferenceIn("}"); NoReferenceIn(""); }
    SubPlain(st, overrides, v, "}");
    SubAround(st, overrides, v, "", k, "}", inner, "}", {});
    assert "" + ref + "}" == ref + "}" && "" + m + "}" == m + "}" && {k} + {} == {k};
    var one := "{" + (ref + "}");
    assert one[0] == '{' && one[1..] == ref + "}" && one[..1] == "{";
    SubChar(st, overrides, v, one, m + "}", {k});
    assert s[0] == '$' && s[1] == '{' && s[2] == '$' && s[1..] == one && s[2..][0] == '$' && s[..1] == "$";
    assert NameEnd(s[2..]) == 0;
    SubChar(st, overrides, v, s, "{" + (m + "}"), {k});
    assert "$" + ("{" + (m + "}")) == "${" + m + "}";
  }

  lemma {:induction false} NoReferenceIn(a: string)
    requires '$' !in a
    ensures !HasRef(a)
  {
    if a != "" {
      assert "${"[0] == '$';
      NoReferenceIn(a[1..]);
    }
  }

  lemma {:induction false} NestedHasRef(k: string, m: string)
    requires IsName(m)
    ensures var s := "${" + ("${" + k + "}") + "}"; HasRef(s) && s != "${" + m + "}"
  {
    NamesAreNames(m);
    var s := "${" + ("${" + k + "}") + "}";
    assert s[..2] == "${" && s[2] == '$';
    var t := "${" + m + "}";
    assert t[2] == m[0];
  }

  // A variable that refers to itself cannot be read.
  lemma {:induction false} SelfReferenceFails(st: Store, overrides: seq<string>, v: string, n: nat)
    requires StandsAlone(st, v, "${" + v + "}") && IsName(v)
    ensures Eval(st, overrides, n, v).Err?
  {
    var s := "${" + v + "}";
    RefInFront(v, "");
    assert "${" + v + "}" + "" == s;
    NothingToChoose(overrides);
    if n > 0 {
      assert RawFrom(FlagsOf(st, v), None, overrides) == Some(s);
      assert n > 1 ==> Sub(st, overrides, n - 2, v, s) == Err(SelfReference);
      assert Expand(st, overrides, n - 1, v, s).Err?;
      assert ExpandOption(st, overrides, n - 1, v, Some(s)).Err?;
      assert EvalVariant(st, overrides, n - 1, None) == Ok(NOTHING);
      assert EvalFrom(st, overrides, n - 1, v, NOTHING).Err?;
    }
  }
}
