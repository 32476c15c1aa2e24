// Variables with one variant: what the `:remove` texts of one, which reading it adds to the parsed value
// of the variant, do to those read after it (data_smart.py:821, 863-893).
module SharedVariants {
  import opened Prelude
  import opened Words
  import opened OverrideScan
  import opened OverrideNames
  import opened Expansion
  import opened EvalSteps
  import opened StoreOps
  import opened CacheFacts
  import opened DataStore

  // ----- a read without references -----

  function PlainWords(texts: set<string>): map<string, set<string>> {
    map r | r in texts :: FieldSet(r)
  }

  function PlainRead(raw: Option<string>, texts: set<string>): Entry {
    Assemble(raw, raw, {}, PlainWords(texts))
  }

  lemma {:induction false} PlainReads(st: Store, o: seq<string>, v: string, variant: Entry)
    requires VariantIs(st, o, v, variant) && PlainOption(RawFrom(FlagsOf(st, v), variant.raw, o))
    requires PlainTexts(variant.removes + ActiveTexts(FlagsOf(st, v).removes, o))
    ensures Reads(st, o, v, PlainRead(RawFrom(FlagsOf(st, v), variant.raw, o),
                  variant.removes + ActiveTexts(FlagsOf(st, v).removes, o)))
  {
    hide VariantIs, RawFrom, ActiveTexts, HasRef, FieldSet, Assemble;
    var raw, texts := RawFrom(FlagsOf(st, v), variant.raw, o), variant.removes + ActiveTexts(FlagsOf(st, v).removes, o);
    var words := PlainWords(texts);
    if raw.Some? { ExpandPlain(st, o, v, raw.value); }
    forall r | r in words ensures WordsOf(st, o, r, words[r]) {
      ExpandPlain(st, o, "", r);
    }
    WordsTogether(st, o, words);
    assert words.Keys == texts;
    ReadAll(st, o, v, variant, raw, {}, words);
  }

  // What the program computes from these texts is that.
  lemma {:induction false} PlainPutTogether(p: Parsed, raw: Option<string>, texts: set<string>)
    requires PutTogether(p, raw, texts) && PlainOption(raw) && PlainTexts(texts)
    ensures EntryOf(p) == PlainRead(raw, texts)
    ensures OrEmpty(raw) != "" && texts != {} ==> p.removes.Some?
    ensures p.removes.Some? ==> p.removes.value.lent == map[]
  {
    hide HasRef, FieldSet, Removed;
    var value, refs, words :| IsPutTogether(p, raw, texts, value, refs, words);
    assert value == raw && refs == {};
    if OrEmpty(value) != "" {
      forall r | r in texts ensures r in words && words[r] == FieldSet(r) {
        assert !HasRef(r);
      }
      assert words == PlainWords(texts);
    }
  }

  // Some word of `s` is one that `t` names.
  predicate Matches(t: string, s: string) {
    exists w :: w in Fields(s) && w in FieldSet(t)
  }

  lemma {:induction false} DropSame(s: string, gone: set<string>, more: set<string>)
    requires forall w :: w in Fields(s) ==> (w in gone <==> w in more)
    ensures Drop(s, gone) == Drop(s, more)
  {
    if s != "" {
      if IsSpace(s[0]) {
        DropSame(s[1..], gone, more);
      } else {
        assert Fields(s)[0] == s[..WordEnd(s)];
        assert forall w :: w in Fields(s[WordEnd(s)..]) ==> w in Fields(s);
        DropSame(s[WordEnd(s)..], gone, more);
      }
    }
  }

  lemma {:induction false} ReadIsRemoved(raw: Option<string>, texts: set<string>)
    requires OrEmpty(raw) != ""
    ensures PlainRead(raw, texts) == Removed(raw, raw.value, {}, PlainWords(texts))
  {
    hide FieldSet, Drop;
    if texts == {} {
      DropNothing(raw.value, Gone(PlainWords({})));
      assert PlainWords({}) == map[];
    } else {
      var r :| r in texts;
      assert r in PlainWords(texts);
    }
  }

  // More texts to remove show in the read if and only if one of the new ones matches.
  lemma {:induction false} MoreTextsShow(raw: Option<string>, texts: set<string>, more: set<string>)
    ensures PlainRead(raw, texts + more) == PlainRead(raw, texts) <==>
      forall t :: t in more ==> t in texts || !Matches(t, OrEmpty(raw))
  {
    hide FieldSet, Drop;
    if OrEmpty(raw) != "" {
      ReadIsRemoved(raw, texts);
      ReadIsRemoved(raw, texts + more);
      var s, few, many := raw.value, PlainWords(texts), PlainWords(texts + more);
      if forall t :: t in more ==> t in texts || !Matches(t, s) {
        SameUse(s, texts, more);
      } else {
        var t :| t in more && t !in texts && Matches(t, s);
        assert t in Used(many, s) && t !in Used(few, s);
      }
    } else {
      NoFields();
    }
  }

  lemma NoFields()
    ensures Fields("") == []
  {}

  lemma {:induction false} SameUse(s: string, texts: set<string>, more: set<string>)
    requires forall t :: t in more ==> t in texts || !Matches(t, s)
    ensures var (few, many) := (PlainWords(texts), PlainWords(texts + more));
      Drop(s, Gone(many)) == Drop(s, Gone(few)) && Used(many, s) == Used(few, s)
  {
    hide FieldSet, Drop;
    var few, many := PlainWords(texts), PlainWords(texts + more);
    forall w | w in Fields(s) ensures w in Gone(few) <==> w in Gone(many) {
      if w in Gone(many) {
        var r :| r in many && w in many[r];
        assert Matches(r, s);
        assert r in few && w in few[r];
      }
      if w in Gone(few) {
        var r :| r in few && w in few[r];
        assert r in many && w in many[r];
      }
    }
    DropSame(s, Gone(few), Gone(many));
    forall r ensures r in Used(many, s) <==> r in Used(few, s) {
      if r in Used(many, s) { assert Matches(r, s); }
    }
  }

  // ----- the variant, and one variable after another -----

  ghost function Texts(st: Store, o: seq<string>, v: string): set<string> {
    ActiveTexts(FlagsOf(st, v).removes, o)
  }

  // The unexpanded value of `n`, which has no variant itself, and that of `v` with the variant `n`
  ghost function Base(st: Store, o: seq<string>, n: string): Option<string> {
    RawFrom(FlagsOf(st, n), None, o)
  }

  ghost function RawOver(st: Store, o: seq<string>, n: string, v: string): Option<string> {
    RawFrom(FlagsOf(st, v), Base(st, o, n), o)
  }

  // The removes that the parsed value of `n` has at first: those that took effect in it.
  ghost function Own(st: Store, o: seq<string>, n: string): set<string> {
    PlainRead(Base(st, o, n), Texts(st, o, n)).removes
  }

  // `n` is the variant of `k`, and nothing about `k` refers to a variable.
  ghost predicate IsLender(st: Store, o: seq<string>, n: string, k: string) {
    && Chosen(RecordsOf(st, k), o) == Some(n)
    && PlainOption(RawOver(st, o, n, k)) && PlainTexts(Texts(st, o, k))
  }

  // `n` has removes, and is the variant of all the names; all texts are free of references.
  ghost predicate Lending(st: Store, o: seq<string>, n: string, names: seq<string>) {
    && Chosen(RecordsOf(st, n), o) == None && PlainOption(Base(st, o, n)) && PlainTexts(Texts(st, o, n))
    && Texts(st, o, n) != {} && OrEmpty(Base(st, o, n)) != ""
    && NoRepeats(names) && forall k :: k in names ==> IsLender(st, o, n, k)
  }

  // What reading the names adds to the removes of the variant; a variable without a value adds nothing.
  ghost function LentBy(st: Store, o: seq<string>, n: string, names: seq<string>): set<string> {
    if names == [] then {}
    else
      var k := names[|names| - 1];
      LentBy(st, o, n, names[..|names| - 1]) + if OrEmpty(RawOver(st, o, n, k)) != "" then Texts(st, o, k) else {}
  }

  // The condition: what was added before is in the removes of `k` or of the variant, or matches no word of
  // `k`; and so for each of the names.
  ghost predicate HarmlessFor(st: Store, o: seq<string>, n: string, before: seq<string>, k: string) {
    forall t :: t in LentBy(st, o, n, before) ==>
      t in Own(st, o, n) + Texts(st, o, k) || !Matches(t, OrEmpty(RawOver(st, o, n, k)))
  }

  ghost predicate Harmless(st: Store, o: seq<string>, n: string, names: seq<string>) {
    forall j :: 0 <= j < |names| ==> HarmlessFor(st, o, n, names[..j], names[j])
  }

  // A store in which the removes agree meets it.
  lemma {:induction false} AgreeingIsHarmless(st: Store, o: seq<string>, n: string, names: seq<string>)
    requires RemovesAgree(st) && Lending(st, o, n, names)
    ensures Harmless(st, o, n, names)
  {
    hide RemovesAgree, RawOver, Chosen, Matches, Base, Texts, Own;
    forall j | 0 <= j < |names| ensures HarmlessFor(st, o, n, names[..j], names[j]) {
      forall k | k in names[..j] ensures Texts(st, o, k) == Texts(st, o, names[j]) {
        assert IsLender(st, o, n, k) && IsLender(st, o, n, names[j]);
        TextsAgree(st, o, n, k, names[j]);
      }
      LentByThose(st, o, n, names[..j]);
    }
  }

  lemma {:induction false} TextsAgree(st: Store, o: seq<string>, n: string, k: string, l: string)
    requires RemovesAgree(st) && Texts(st, o, n) != {}
    requires Chosen(RecordsOf(st, k), o) == Chosen(RecordsOf(st, l), o) == Some(n)
    ensures Texts(st, o, k) == Texts(st, o, l)
  {
    hide Chosen;
    ChosenIsRecorded(RecordsOf(st, k), o);
    ChosenIsRecorded(RecordsOf(st, l), o);
    var r :| r in RecordsOf(st, k) && r.name == n;
    var q :| q in RecordsOf(st, l) && q.name == n;
    assert CanCarry(st, n) && SharesVariant(st, k, l);
  }

  lemma {:induction false} LentByThose(st: Store, o: seq<string>, n: string, names: seq<string>)
    ensures forall t :: t in LentBy(st, o, n, names) ==> exists k :: k in names && t in Texts(st, o, k)
  {
    hide Texts, RawOver;
    if names != [] {
      LentByThose(st, o, n, names[..|names| - 1]);
    }
  }

  lemma {:induction false} OwnIsActive(st: Store, o: seq<string>, n: string)
    ensures Own(st, o, n) <= Texts(st, o, n)
  {}

  lemma {:induction false} LentIsPlain(st: Store, o: seq<string>, n: string, names: seq<string>)
    requires forall k :: k in names ==> PlainTexts(Texts(st, o, k))
    ensures PlainTexts(LentBy(st, o, n, names))
  {
    hide Texts, RawOver, HasRef;
    LentByThose(st, o, n, names);
  }

  // Reading from scratch.
  lemma {:induction false} ReadsFromScratch(st: Store, o: seq<string>, n: string, names: seq<string>)
    requires Lending(st, o, n, names)
    ensures Reads(st, o, n, PlainRead(Base(st, o, n), Texts(st, o, n)))
    ensures forall k :: k in names ==>
      Reads(st, o, k, PlainRead(RawOver(st, o, n, k), Own(st, o, n) + Texts(st, o, k)))
  {
    hide Chosen, Reads, RawFrom, ActiveTexts, HasRef;
    OwnIsActive(st, o, n);
    assert NOTHING.removes + Texts(st, o, n) == Texts(st, o, n);
    PlainReads(st, o, n, NOTHING);
    var e := PlainRead(Base(st, o, n), Texts(st, o, n));
    assert e.raw == Base(st, o, n);
    forall k | k in names
      ensures Reads(st, o, k, PlainRead(RawOver(st, o, n, k), Own(st, o, n) + Texts(st, o, k)))
    {
      assert IsLender(st, o, n, k);
      PlainReads(st, o, k, e);
    }
  }

  // ----- the cache on the way -----

  // The parsed value of the variant, after the names have been read.
  ghost predicate IsVariant(st: Store, o: seq<string>, n: string, names: seq<string>, p: Parsed) {
    && EntryOf(p) == PlainRead(Base(st, o, n), Texts(st, o, n)) && p.raw == Base(st, o, n)
    && p.removes.Some? && Carried(p) == Own(st, o, n) + LentBy(st, o, n, names)
    && forall v :: v in p.removes.value.lent ==> v in names && p.removes.value.lent[v] <= Texts(st, o, v)
  }

  // What `k` is read as after other names.
  ghost function ReadAfter(st: Store, o: seq<string>, n: string, before: seq<string>, k: string): Entry {
    PlainRead(RawOver(st, o, n, k), Own(st, o, n) + Texts(st, o, k) + LentBy(st, o, n, before))
  }

  // The parsed value of `k`, read after the names.
  ghost predicate IsRead(st: Store, o: seq<string>, n: string, before: seq<string>, k: string, q: Parsed) {
    EntryOf(q) == ReadAfter(st, o, n, before, k) && (q.removes.Some? ==> q.removes.value.lent == map[])
  }

  ghost predicate ReadSoFar(st: Store, o: seq<string>, n: string, names: seq<string>, cache: Cache) {
    && (forall k :: k in cache <==> k == n || k in names)
    && n !in names && IsVariant(st, o, n, names, cache[n])
    && forall j :: 0 <= j < |names| ==> IsRead(st, o, n, names[..j], names[j], cache[names[j]])
  }

  lemma {:induction false} FirstRead(st: Store, o: seq<string>, n: string, names: seq<string>)
    requires Lending(st, o, n, names)
    ensures PlainStep(st, Some(o), map[], n) && Chosen(RecordsOf(st, n), o) == None
    ensures forall mid :: PlainEffect(st, Some(o), map[], mid, n) ==> mid == map[]
    ensures forall p :: ReadsThrough(st, o, n, p, map[n := p]) ==> ReadSoFar(st, o, n, [], map[n := p])
  {
    hide Chosen, RawFrom, ActiveTexts, HasRef, PutTogether;
    assert {} + Texts(st, o, n) == Texts(st, o, n);
    forall p | ReadsThrough(st, o, n, p, map[n := p]) ensures ReadSoFar(st, o, n, [], map[n := p]) {
      PlainPutTogether(p, Base(st, o, n), Texts(st, o, n));
      assert Carried(p) == Own(st, o, n);
    }
  }

  // The cache once `k` has added its texts.
  ghost function Added(st: Store, o: seq<string>, n: string, k: string, cache: Cache): Cache
    requires n in cache && cache[n].removes.Some?
  {
    if OrEmpty(RawOver(st, o, n, k)) != "" then cache[n := Lend(cache[n], k, Texts(st, o, k))] else cache
  }

  lemma {:induction false} NextStep(st: Store, o: seq<string>, n: string, names: seq<string>, k: string, cache: Cache)
    requires Lending(st, o, n, names + [k]) && ReadSoFar(st, o, n, names, cache)
    ensures PlainStep(st, Some(o), cache, k) && Chosen(RecordsOf(st, k), o) != Some(k) && k !in cache
    ensures forall mid :: PlainEffect(st, Some(o), cache, mid, k) ==> mid == Added(st, o, n, k, cache)
  {
    hide Chosen, RawFrom, ActiveTexts, HasRef, Carried, PlainRead, LentBy, IsRead;
    LastIsNew(names, k);
    assert IsLender(st, o, n, k);
    OwnIsActive(st, o, n);
    LentIsPlain(st, o, n, names);
  }

  lemma {:induction false} LastIsNew(names: seq<string>, k: string)
    requires NoRepeats(names + [k])
    ensures k !in names && NoRepeats(names) && k in names + [k] && forall l :: l in names ==> l in names + [k]
  {
    var more := names + [k];
    assert more[|names|] == k && forall i :: 0 <= i < |names| ==> more[i] == names[i];
  }

  lemma {:induction false} NextRead(st: Store, o: seq<string>, n: string, names: seq<string>, k: string, cache: Cache,
                                    q: Parsed)
    requires Lending(st, o, n, names + [k]) && ReadSoFar(st, o, n, names, cache)
    requires ReadsThrough(st, o, k, q, Added(st, o, n, k, cache)[k := q])
    ensures ReadSoFar(st, o, n, names + [k], Added(st, o, n, k, cache)[k := q])
  {
    hide Chosen, RawFrom, ActiveTexts, HasRef, PutTogether, Carried, PlainRead, IsRead, Lending;
    var (more, now) := (names + [k], Added(st, o, n, k, cache)[k := q]);
    LenderOf(st, o, n, names, k);
    AddedToVariant(st, o, n, names, k, cache);
    NewIsRead(st, o, n, names, k, now[n], q, now);
    forall j | 0 <= j < |more| ensures IsRead(st, o, n, more[..j], more[j], now[more[j]]) {
      if j < |names| {
        assert more[..j] == names[..j] && more[j] == names[j];
      } else {
        assert more[..j] == names && more[j] == k;
      }
    }
  }

  lemma LenderOf(st: Store, o: seq<string>, n: string, names: seq<string>, k: string)
    requires Lending(st, o, n, names + [k])
    ensures k !in names && IsLender(st, o, n, k) && k != n && PlainTexts(Texts(st, o, n))
    ensures forall l :: l in names ==> IsLender(st, o, n, l)
  {
    hide RawOver, Chosen, HasRef;
    LastIsNew(names, k);
  }

  lemma {:induction false} AddedToVariant(st: Store, o: seq<string>, n: string, names: seq<string>, k: string,
                                          cache: Cache)
    requires ReadSoFar(st, o, n, names, cache)
    ensures IsVariant(st, o, n, names + [k], Added(st, o, n, k, cache)[n])
  {
    hide RawOver, Texts, PlainRead, Carried, LentBy, Own, Base, IsRead;
    var p := cache[n];
    CarriedLent(p, k, Texts(st, o, k));
    LentByMore(st, o, n, names, k);
    var q := Added(st, o, n, k, cache)[n];
    assert EntryOf(q) == EntryOf(p) && q.raw == p.raw;
    forall v | v in q.removes.value.lent ensures v in names + [k] && q.removes.value.lent[v] <= Texts(st, o, v) {
      assert v in p.removes.value.lent || v == k;
    }
  }

  lemma LentByMore(st: Store, o: seq<string>, n: string, names: seq<string>, k: string)
    ensures LentBy(st, o, n, names + [k]) ==
      LentBy(st, o, n, names) + if OrEmpty(RawOver(st, o, n, k)) != "" then Texts(st, o, k) else {}
  {
    assert (names + [k])[..|names|] == names && (names + [k])[|names|] == k;
  }

  lemma {:induction false} NewIsRead(st: Store, o: seq<string>, n: string, names: seq<string>, k: string, p: Parsed,
                                     q: Parsed, now: Cache)
    requires IsLender(st, o, n, k) && PlainTexts(Texts(st, o, n)) && k != n
    requires forall l :: l in names ==> IsLender(st, o, n, l)
    requires n in now && now[n] == p && IsVariant(st, o, n, names + [k], p) && ReadsThrough(st, o, k, q, now)
    ensures IsRead(st, o, n, names, k, q)
  {
    hide Chosen, RawFrom, ActiveTexts, HasRef, PutTogether, Carried, PlainRead;
    OwnIsActive(st, o, n);
    LentIsPlain(st, o, n, names);
    var (raw, texts) := (RawOver(st, o, n, k), Own(st, o, n) + Texts(st, o, k) + LentBy(st, o, n, names));
    LentByMore(st, o, n, names, k);
    assert Carried(p) + Texts(st, o, k) == texts;
    PlainPutTogether(q, raw, texts);
  }

  // The cache after the reads is right if and only if the condition holds.
  lemma {:induction false} RightIffHarmless(st: Store, o: seq<string>, n: string, names: seq<string>, cache: Cache)
    requires Lending(st, o, n, names) && ReadSoFar(st, o, n, names, cache)
    ensures CacheFits(st, Some(o), cache) <==> Harmless(st, o, n, names)
  {
    hide Chosen, Reads, RawOver, Texts, HasRef, PlainRead, Matches, CacheFits, Own, LentBy, Base;
    ReadsFromScratch(st, o, n, names);
    forall j | 0 <= j < |names|
      ensures Reads(st, o, names[j], EntryOf(cache[names[j]])) <==> HarmlessFor(st, o, n, names[..j], names[j])
    {
      OneIffHarmless(st, o, n, names[..j], names[j], cache[names[j]]);
    }
    EntriesFit(st, o, n, names, cache);
  }

  lemma {:induction false} OneIffHarmless(st: Store, o: seq<string>, n: string, before: seq<string>, k: string,
                                          q: Parsed)
    requires IsRead(st, o, n, before, k, q)
    requires Reads(st, o, k, PlainRead(RawOver(st, o, n, k), Own(st, o, n) + Texts(st, o, k)))
    ensures Reads(st, o, k, EntryOf(q)) <==> HarmlessFor(st, o, n, before, k)
  {
    hide Reads, RawOver, Texts, PlainRead, Matches, Own, LentBy;
    var texts := Own(st, o, n) + Texts(st, o, k);
    MoreTextsShow(RawOver(st, o, n, k), texts, LentBy(st, o, n, before));
    if Reads(st, o, k, EntryOf(q)) {
      ReadsIsFunctional(st, o, k, EntryOf(q), PlainRead(RawOver(st, o, n, k), texts));
    }
  }

  lemma {:induction false} EntriesFit(st: Store, o: seq<string>, n: string, names: seq<string>, cache: Cache)
    requires Lending(st, o, n, names) && ReadSoFar(st, o, n, names, cache) && Reads(st, o, n, EntryOf(cache[n]))
    ensures CacheFits(st, Some(o), cache) <==>
      forall j :: 0 <= j < |names| ==> Reads(st, o, names[j], EntryOf(cache[names[j]]))
  {
    hide Chosen, Reads, RawOver, HasRef, PlainRead, LentBy, Own, Base, Carried;
    assert Allows(Some(o), o) && FlagsOf(st, n).removes != [];
    forall k | k in cache ensures CarryFits(st, Some(o), k, cache[k]) {
      if k != n {
        var j :| 0 <= j < |names| && names[j] == k;
        assert IsRead(st, o, n, names[..j], k, cache[k]) && IsLender(st, o, n, k);
        ChosenIsRecorded(RecordsOf(st, k), o);
      } else {
        assert forall v :: v in cache[n].removes.value.lent ==> IsLender(st, o, n, v);
      }
    }
    if CacheFits(st, Some(o), cache) {
      forall j | 0 <= j < |names| ensures Reads(st, o, names[j], EntryOf(cache[names[j]])) {
        CachedFits(st, Some(o), cache, names[j]);
      }
    }
  }

  // From an empty cache, the variant is read, and then variables with it, one after another. Each loses the
  // words that those before it remove, and the cache stays right if and only if that shows nowhere.
  method ReadInTurn(d: DataSmart, depth: nat, n: string, names: seq<string>, ghost o: seq<string>)
      returns (values: seq<Option<string>>)
    requires d.Valid() && d.overrides == Some(o) && d.expandCache == map[] && depth > 0
    requires Lending(d.View(), o, n, names)
    modifies d`overrides, d`inoverride, d`expandCache
    ensures d.Valid() && d.View() == old(d.View()) && d.overrides == Some(o)
    ensures |values| == |names|
    ensures forall j :: 0 <= j < |names| ==> values[j] == ReadAfter(d.View(), o, n, names[..j], names[j]).value
    ensures CacheFits(d.View(), d.overrides, d.expandCache) <==> Harmless(d.View(), o, n, names)
  {
    hide DataSmart.View, DataSmart.Valid, PlainStep, PlainEffect, ReadsThrough, CacheFits, Right, Reads, Chosen;
    hide PlainRead, Harmless, Carried, RawFrom, ActiveTexts, Own, Fits, HasRef, CanRead, Known, Grows;
    hide Lending, ReadSoFar, ReadAfter, Added, LentBy, RawOver;
    ghost var st := d.View();
    ghost var mid;
    FirstRead(st, o, n, names);
    var p := d.GetEntry(depth, n, true, st, false);
    mid :| PlainEffect(st, Some(o), map[], mid, n) && d.expandCache == mid[n := p.value];
    assert d.expandCache == map[n := p.value] && names[..0] == [];
    values := [];
    for i := 0 to |names|
      invariant d.Valid() && d.View() == st && d.overrides == Some(o) && |values| == i
      invariant ReadSoFar(st, o, n, names[..i], d.expandCache)
      invariant forall j :: 0 <= j < i ==> values[j] == ReadAfter(st, o, n, names[..j], names[j]).value
    {
      ghost var cache := d.expandCache;
      assert names[..i + 1] == names[..i] + [names[i]];
      LendingSoFar(st, o, n, names, i + 1);
      NextStep(st, o, n, names[..i], names[i], cache);
      var q := d.GetEntry(depth, names[i], true, st, false);
      mid :| PlainEffect(st, Some(o), cache, mid, names[i]) && d.expandCache == mid[names[i] := q.value];
      NextRead(st, o, n, names[..i], names[i], cache, q.value);
      LastIsRead(st, o, n, names[..i], names[i], d.expandCache);
      values := values + [q.value.value];
    }
    assert names[..|names|] == names;
    RightIffHarmless(st, o, n, names, d.expandCache);
  }

  lemma LastIsRead(st: Store, o: seq<string>, n: string, names: seq<string>, k: string, cache: Cache)
    requires ReadSoFar(st, o, n, names + [k], cache)
    ensures k in cache && IsRead(st, o, n, names, k, cache[k])
  {
    hide IsRead, IsVariant;
    assert (names + [k])[..|names|] == names && (names + [k])[|names|] == k;
  }

  lemma LendingSoFar(st: Store, o: seq<string>, n: string, names: seq<string>, i: nat)
    requires Lending(st, o, n, names) && i <= |names|
    ensures Lending(st, o, n, names[..i])
  {
    hide RawOver, Texts, Base, Chosen, HasRef;
  }
}
