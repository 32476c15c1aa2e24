// Renaming a variable that has variants (data_smart.py:688-692): the variants follow, in the order
// in which they were recorded, and the same one is chosen as before.
module RenameVariants {
  import opened Prelude
  import opened Text
  import opened OverrideScan
  import opened OverrideNames
  import opened Expansion
  import opened EvalSteps
  import opened StoreOps
  import opened StoreLaws
  import opened StoreRename

  function Variant(v: string, c: string): string {
    v + ":" + c
  }

  // The records of the variants of `v` for these overrides.
  function Variants(v: string, conds: seq<string>): seq<Record> {
    if conds == [] then [] else [Record(Variant(v, conds[0]), conds[0])] + Variants(v, conds[1..])
  }

  // What renaming keeps of the flags of a variable.
  function Kept(f: Flags): Flags {
    Flags(StartOf(f), None, f.appends, f.prepends, f.removes, map[])
  }

  // Each variant is for one override, has no variants itself, and its new name is free.
  predicate CanFollow(st: Store, key: string, newkey: string, c: string) {
    var (v, w) := (Variant(key, c), Variant(newkey, c));
    && IsOverride(c) && ':' !in c && Replace(v, key, newkey) == w
    && v !in st.recorded && w !in st.recorded && FlagsOf(st, w) == NO_FLAGS
    && ParseName(w).None? && !HasOldSyntax(w)
  }

  predicate CanAllFollow(st: Store, key: string, newkey: string, conds: seq<string>) {
    NoRepeats(conds) && forall c :: c in conds ==> CanFollow(st, key, newkey, c)
  }

  lemma {:induction false} VariantsDiffer(v: string, c: string, w: string, d: string)
    requires ':' !in v && ':' !in w && Variant(v, c) == Variant(w, d)
    ensures v == w && c == d
  {
    var s := Variant(v, c);
    assert s[|v|] == ':' && s[|w|] == ':';
    assert |v| == |w|;
    assert v == s[..|v|] && w == s[..|w|] && c == s[|v| + 1..] && d == s[|w| + 1..];
  }

  lemma OnlyMovedFrom(listed: Store, st: Store, next: Store, v: string, w: string)
    requires OnlyMoved(listed, next, v, w) && listed.vars == st.vars
    ensures OnlyMoved(st, next, v, w)
  {
    assert forall k :: FlagsOf(listed, k) == FlagsOf(st, k);
  }

  ghost predicate OnlyMoved(st: Store, next: Store, v: string, w: string) {
    && FlagsOf(next, w) == Kept(FlagsOf(st, v)) && FlagsOf(next, v) == NO_FLAGS
    && forall k :: k != v && k != w ==> FlagsOf(next, k) == FlagsOf(st, k)
  }

  // One turn of the loop, for the first of the variants that are left.
  lemma {:induction false} OneFollows(st: Store, key: string, newkey: string, c: string, rest: seq<Record>, depth: nat)
    requires ':' !in key && ':' !in newkey && key != newkey && depth > 0 && CanFollow(st, key, newkey, c)
    requires key in st.recorded && st.recorded[key] == [Record(Variant(key, c), c)] + rest
    requires newkey in st.recorded && Record(Variant(newkey, c), c) in st.recorded[newkey]
    ensures var (v, w) := (Variant(key, c), Variant(newkey, c));
      var after := AfterRename(st, v, w, depth);
      && after.Ok? && after.value.recorded == st.recorded[key := rest]
      && OnlyMoved(st, after.value, v, w)
  {
    hide OperatorsMoved, Variant, HasOldSyntax, ParseName, Replace, RecordName, UnrecordName, Kept;
    var (v, w) := (Variant(key, c), Variant(newkey, c));
    var f := FlagsOf(st, v);
    if v == w { VariantsDiffer(key, c, newkey, c); }
    OperatorsFollow(st, v, w, newkey, c);
    var moved := OperatorsMoved(st, v, w);
    assert WithName(moved, w, StartOf(f)) == moved by { AlreadyRecorded(st.recorded, newkey, c); }
    UnrecordVariant(st.recorded, key, c);
    assert st.recorded - {v} == st.recorded;
    assert AfterDel(moved, v).recorded == st.recorded[key := rest];
  }

  lemma {:induction false} AlreadyRecorded(recorded: map<string, seq<Record>>, v: string, c: string)
    requires ':' !in v && ':' !in c && IsOverride(c) && v in recorded && Record(Variant(v, c), c) in recorded[v]
    ensures RecordName(recorded, Variant(v, c)) == recorded
  {
    RecordVariant(recorded, v, c);
  }

  // The value and the operators of one variant.
  lemma {:induction false} OperatorsFollow(st: Store, v: string, w: string, newkey: string, c: string)
    requires v != w && w == Variant(newkey, c) && ':' !in newkey && ':' !in c && IsOverride(c)
    requires newkey in st.recorded && Record(w, c) in st.recorded[newkey]
    requires ParseName(w).None? && FlagsOf(st, w) == NO_FLAGS
    ensures OperatorsMoved(st, v, w) == st.(vars := st.vars[w := Kept(FlagsOf(st, v))])
  {
    hide ParseName, RecordName, Variant;
    AlreadyRecorded(st.recorded, newkey, c);
    var f := FlagsOf(st, v);
    assert [] + f.appends == f.appends && [] + f.prepends == f.prepends && [] + f.removes == f.removes;
    var written := Written(st, v, w);
    assert written.recorded == st.recorded && FlagsOf(written, v) == f;
    assert Merged(FlagsOf(written, w), f) == Kept(f);
    assert written.vars[w := Kept(f)] == st.vars[w := Kept(f)];
  }

  lemma {:induction false} UnrecordVariant(recorded: map<string, seq<Record>>, v: string, c: string)
    requires ':' !in v && ':' !in c && IsOverride(c)
    ensures UnrecordName(recorded, Variant(v, c)) == DropRecord(recorded, v, Record(Variant(v, c), c))
  {
    var w := Variant(v, c);
    LastColonIs(v, c);
    assert w[..|v|] == v && w[|v| + 1..] == c;
  }

  // The flags of each variant are under its new name, and nothing else has changed.
  ghost predicate FlagsFollowed(st: Store, after: Store, key: string, newkey: string, conds: seq<string>) {
    && (forall c :: c in conds ==> FlagsOf(after, Variant(newkey, c)) == Kept(FlagsOf(st, Variant(key, c))))
    && (forall c :: c in conds ==> FlagsOf(after, Variant(key, c)) == NO_FLAGS)
    && forall k :: (forall c :: c in conds ==> k != Variant(key, c) && k != Variant(newkey, c)) ==>
      FlagsOf(after, k) == FlagsOf(st, k)
  }

  // The whole loop, with `done` behind it.
  lemma {:induction false} AllFollow(st: Store, key: string, newkey: string, done: seq<string>, conds: seq<string>,
                                     depth: nat)
    requires ':' !in key && ':' !in newkey && key != newkey && depth > 0 && CanAllFollow(st, key, newkey, conds)
    requires key in st.recorded && st.recorded[key] == Variants(key, conds)
    requires newkey in st.recorded && st.recorded[newkey] == Variants(newkey, done)
    ensures var after := AfterVariants(st, key, newkey, Variants(key, conds), depth);
      && after.Ok? && after.value.recorded == st.recorded[newkey := Variants(newkey, done + conds)][key := []]
      && FlagsFollowed(st, after.value, key, newkey, conds)
    decreases |conds|
  {
    hide Variant, AfterRename, CanAllFollow, Replace, FlagsFollowed, OnlyMoved;
    if conds == [] {
      assert done + conds == done;
      NothingFollowed(st, key, newkey);
      assert st.recorded[newkey := Variants(newkey, done)][key := []] == st.recorded;
    } else {
      var c, rest := conds[0], conds[1..];
      var (v, w) := (Variant(key, c), Variant(newkey, c));
      OneStep(st, key, newkey, done, conds, depth);
      var next := AfterRename(Listed(st, newkey, Record(w, c)), v, w, depth).value;
      AllFollow(next, key, newkey, done + [c], rest, depth);
      var after := AfterVariants(next, key, newkey, Variants(key, rest), depth).value;
      assert done + conds == done + [c] + rest;
      assert after.recorded == st.recorded[newkey := Variants(newkey, done + conds)][key := []];
      FollowedOneMore(st, next, after, key, newkey, conds);
    }
  }

  lemma {:induction false} OneStep(st: Store, key: string, newkey: string, done: seq<string>, conds: seq<string>,
                                   depth: nat)
    requires ':' !in key && ':' !in newkey && key != newkey && depth > 0 && CanAllFollow(st, key, newkey, conds)
      && conds != []
    requires key in st.recorded && st.recorded[key] == Variants(key, conds)
    requires newkey in st.recorded && st.recorded[newkey] == Variants(newkey, done)
    ensures var c := conds[0];
      var (v, w) := (Variant(key, c), Variant(newkey, c));
      var next := AfterRename(Listed(st, newkey, Record(w, c)), v, w, depth);
      && Replace(v, key, newkey) == w && next.Ok?
      && next.value.recorded == st.recorded[newkey := Variants(newkey, done + [c])][key := Variants(key, conds[1..])]
      && OnlyMoved(st, next.value, v, w) && CanAllFollow(next.value, key, newkey, conds[1..])
  {
    hide Variant, AfterRename, CanFollow, Replace, OnlyMoved;
    var c, rest := conds[0], conds[1..];
    var (v, w) := (Variant(key, c), Variant(newkey, c));
    var listed := Listed(st, newkey, Record(w, c));
    VariantsSnoc(newkey, done, c);
    assert conds[0] in conds && listed.recorded.Keys == st.recorded.Keys;
    CanFollowOn(st, listed, key, newkey, c);
    OneFollows(listed, key, newkey, c, Variants(key, rest), depth);
    var next := AfterRename(listed, v, w, depth).value;
    OnlyMovedFrom(listed, st, next, v, w);
    assert next.recorded.Keys == st.recorded.Keys;
    OthersCanFollow(st, next, key, newkey, c, conds);
  }

  lemma NothingFollowed(st: Store, key: string, newkey: string)
    ensures FlagsFollowed(st, st, key, newkey, [])
  {}

  lemma {:induction false} VariantsSnoc(v: string, done: seq<string>, c: string)
    ensures Variants(v, done + [c]) == Variants(v, done) + [Record(Variant(v, c), c)]
    decreases |done|
  {
    if done == [] {
      assert [] + [c] == [c] && [c][1..] == [];
    } else {
      assert (done + [c])[1..] == done[1..] + [c];
      VariantsSnoc(v, done[1..], c);
    }
  }

  lemma {:induction false} CanFollowOn(st: Store, st': Store, key: string, newkey: string, c: string)
    requires CanFollow(st, key, newkey, c) && st'.recorded.Keys == st.recorded.Keys
    requires FlagsOf(st', Variant(newkey, c)) == FlagsOf(st, Variant(newkey, c))
    ensures CanFollow(st', key, newkey, c) && Replace(Variant(key, c), key, newkey) == Variant(newkey, c)
  {}

  lemma {:induction false} OthersCanFollow(st: Store, next: Store, key: string, newkey: string, c: string,
                                           conds: seq<string>)
    requires ':' !in key && ':' !in newkey && key != newkey && conds != [] && conds[0] == c
      && CanAllFollow(st, key, newkey, conds)
    requires next.recorded.Keys == st.recorded.Keys && OnlyMoved(st, next, Variant(key, c), Variant(newkey, c))
    ensures CanAllFollow(next, key, newkey, conds[1..])
  {
    hide Variant, CanFollow;
    forall d | d in conds[1..] ensures CanFollow(next, key, newkey, d) {
      var w := Variant(newkey, d);
      if w == Variant(key, c) { VariantsDiffer(newkey, d, key, c); }
      if w == Variant(newkey, c) { VariantsDiffer(newkey, d, newkey, c); }
      CanFollowOn(st, next, key, newkey, d);
    }
  }

  lemma {:induction false} FollowedOneMore(st: Store, next: Store, after: Store, key: string, newkey: string,
                                           conds: seq<string>)
    requires ':' !in key && ':' !in newkey && key != newkey && conds != []
    requires OnlyMoved(st, next, Variant(key, conds[0]), Variant(newkey, conds[0]))
      && CanAllFollow(st, key, newkey, conds)
    requires FlagsFollowed(next, after, key, newkey, conds[1..])
    ensures FlagsFollowed(st, after, key, newkey, conds)
  {
    hide Variant, FlagsOf, Kept;
    var c, rest := conds[0], conds[1..];
    assert conds == [c] + rest;
    forall d, e | d in rest ensures Variant(newkey, d) != Variant(key, e) && Variant(newkey, d) != Variant(newkey, c)
      && Variant(key, d) != Variant(key, c) {
      if Variant(newkey, d) == Variant(key, e) { VariantsDiffer(newkey, d, key, e); }
      if Variant(newkey, d) == Variant(newkey, c) { VariantsDiffer(newkey, d, newkey, c); }
      if Variant(key, d) == Variant(key, c) { VariantsDiffer(key, d, key, c); }
    }
    forall d | d in rest ensures Variant(newkey, c) != Variant(key, d) {
      if Variant(newkey, c) == Variant(key, d) { VariantsDiffer(newkey, c, key, d); }
    }
  }

  // ----- the same override wins -----

  lemma {:induction false} CollectRenames(active: Dict, active': Dict, v: string, w: string, conds: seq<string>,
                                          m: map<string, string>, overrides: seq<string>)
    requires Sound(active) && Sound(active') && Renames(active, active', m)
    requires forall c :: c in conds ==> Variant(v, c) in m && m[Variant(v, c)] == Variant(w, c)
    ensures Renames(Collect(active, Variants(v, conds), overrides), Collect(active', Variants(w, conds), overrides), m)
    decreases |conds|
  {
    if conds != [] {
      var c := conds[0];
      var applies := Applies(c, overrides);
      var next, next' := if applies then Put(active, c, Variant(v, c))
        else active, if applies then Put(active', c, Variant(w, c)) else active';
      assert c in conds && forall d :: d in conds[1..] ==> d in conds;
      CollectRenames(next, next', v, w, conds[1..], m, overrides);
      assert Variants(v, conds)[1..] == Variants(v, conds[1..]) && Variants(w, conds)[1..] == Variants(w, conds[1..]);
    }
  }

  // The same override wins, under either name.
  lemma {:induction false} SameOverrideWins(v: string, w: string, conds: seq<string>, overrides: seq<string>)
    requires ':' !in v && ':' !in w
    ensures var (x, y) := (Chosen(Variants(v, conds), overrides), Chosen(Variants(w, conds), overrides));
      if x.None? then y.None? else exists c :: c in conds && x == Some(Variant(v, c)) && y == Some(Variant(w, c))
  {
    var names := set c | c in conds :: Variant(v, c);
    var m := map n | n in names :: NewName(v, w, n);
    forall c | c in conds ensures Variant(v, c) in m && m[Variant(v, c)] == Variant(w, c) {
      assert Variant(v, c)[|v| + 1..] == c;
    }
    CollectRenames(EMPTY, EMPTY, v, w, conds, m, overrides);
    WalkRenames(Collect(EMPTY, Variants(v, conds), overrides), Collect(EMPTY, Variants(w, conds), overrides), None,
      None, m, overrides);
    if Chosen(Variants(v, conds), overrides).Some? {
      var c :| c in conds && Chosen(Variants(v, conds), overrides) == Some(Variant(v, c));
    }
  }

  function NewName(v: string, w: string, n: string): string {
    if |n| <= |v| then n else Variant(w, n[|v| + 1..])
  }

  // ----- the whole renaming -----

  predicate CanMove(st: Store, key: string, newkey: string, conds: seq<string>) {
    && ':' !in key && ':' !in newkey && key != newkey
    && key in st.recorded && st.recorded[key] == Variants(key, conds)
    && newkey !in st.recorded && FlagsOf(st, newkey) == NO_FLAGS
    && ParseName(newkey).None? && !HasOldSyntax(newkey) && CanAllFollow(st, key, newkey, conds)
  }

  // A name that the renaming has nothing to do with.
  predicate IsElsewhere(key: string, newkey: string, conds: seq<string>, k: string) {
    k != key && k != newkey && forall c :: c in conds ==> k != Variant(key, c) && k != Variant(newkey, c)
  }

  // The new name holds what the old one held, with the variants in their order, each variant has
  // followed, and the old names are gone.
  ghost predicate HasMoved(st: Store, after: Store, key: string, newkey: string, conds: seq<string>) {
    && RecordsOf(after, newkey) == Variants(newkey, conds) && FlagsOf(after, newkey) == Kept(FlagsOf(st, key))
    && IsUnused(after, key)
    && forall c :: c in conds ==> VariantMoved(st, after, key, newkey, c)
  }

  predicate VariantMoved(st: Store, after: Store, key: string, newkey: string, c: string) {
    && FlagsOf(after, Variant(newkey, c)) == Kept(FlagsOf(st, Variant(key, c)))
    && RecordsOf(after, Variant(newkey, c)) == [] && IsUnused(after, Variant(key, c))
  }

  lemma {:induction false} VariantsFollow(st: Store, key: string, newkey: string, conds: seq<string>, depth: nat)
    requires depth > 1 && CanMove(st, key, newkey, conds)
    ensures var after := AfterRename(st, key, newkey, depth);
      && after.Ok? && HasMoved(st, after.value, key, newkey, conds)
      && forall k :: IsElsewhere(key, newkey, conds, k) ==> Same(st, after.value, k)
  {
    hide Variant, CanAllFollow, OperatorsMoved, FlagsFollowed, AfterVariants, HasOldSyntax, ParseName;
    var f := FlagsOf(st, key);
    FirstMoved(st, key, newkey);
    var moved := OperatorsMoved(st, key, newkey);
    var start := moved.(recorded := moved.recorded[newkey := []]);
    CanFollowFromStart(st, start, key, newkey, conds);
    AllFollow(start, key, newkey, [], conds, depth - 1);
    assert [] + conds == conds;
    var rest := AfterVariants(start, key, newkey, Variants(key, conds), depth - 1).value;
    assert rest.recorded == st.recorded[newkey := Variants(newkey, conds)][key := []];
    assert AfterRename(st, key, newkey, depth) == Ok(AfterDel(rest, key));
    AllHaveMoved(st, start, rest, key, newkey, conds);
  }

  lemma {:induction false} FirstMoved(st: Store, key: string, newkey: string)
    requires key != newkey && ':' !in newkey && ParseName(newkey).None? && FlagsOf(st, newkey) == NO_FLAGS
    ensures OperatorsMoved(st, key, newkey) == WithFlags(st, newkey, Kept(FlagsOf(st, key)))
  {
    hide ParseName;
    var f := FlagsOf(st, key);
    var written := Written(st, key, newkey);
    assert [] + f.appends == f.appends && [] + f.prepends == f.prepends && [] + f.removes == f.removes;
    assert Merged(FlagsOf(written, newkey), f) == Kept(f);
    assert written.vars[newkey := Kept(f)] == st.vars[newkey := Kept(f)];
  }

  lemma HasColon(v: string, c: string)
    ensures ':' in Variant(v, c)
  {
    assert Variant(v, c)[|v|] == ':';
  }

  lemma {:induction false} CanFollowFromStart(st: Store, start: Store, key: string, newkey: string, conds: seq<string>)
    requires ':' !in newkey && CanAllFollow(st, key, newkey, conds)
    requires start.recorded.Keys == st.recorded.Keys + {newkey}
    requires forall k :: k != newkey ==> FlagsOf(start, k) == FlagsOf(st, k)
    ensures CanAllFollow(start, key, newkey, conds)
  {
    hide Variant, FlagsOf, ParseName, HasOldSyntax, Replace, IsOverride;
    forall c | c in conds ensures CanFollow(start, key, newkey, c) {
      assert CanFollow(st, key, newkey, c);
      HasColon(key, c);
      HasColon(newkey, c);
    }
  }

  lemma {:induction false} AllHaveMoved(st: Store, start: Store, rest: Store, key: string, newkey: string,
                                        conds: seq<string>)
    requires CanMove(st, key, newkey, conds)
    requires start == WithFlags(st, newkey, Kept(FlagsOf(st, key))).(recorded := st.recorded[newkey := []])
    requires rest.recorded == st.recorded[newkey := Variants(newkey, conds)][key := []]
    requires FlagsFollowed(start, rest, key, newkey, conds)
    ensures HasMoved(st, AfterDel(rest, key), key, newkey, conds)
    ensures forall k :: IsElsewhere(key, newkey, conds, k) ==> Same(st, AfterDel(rest, key), k)
  {
    hide Variant, ParseName, HasOldSyntax, Replace, IsOverride, Kept, Variants, LastColon, UnrecordAt, AfterDel,
      FlagsFollowed;
    var after := AfterDel(rest, key);
    DelWithoutColon(rest, key);
    FollowedElsewhere(start, rest, key, newkey, conds, newkey);
    forall c | c in conds ensures VariantMoved(st, after, key, newkey, c) {
      assert CanFollow(st, key, newkey, c);
      FollowedVariant(start, rest, key, newkey, conds, c);
    }
    forall k | IsElsewhere(key, newkey, conds, k) ensures Same(st, after, k) {
      FollowedElsewhere(start, rest, key, newkey, conds, k);
    }
  }

  lemma DelWithoutColon(st: Store, v: string)
    requires ':' !in v
    ensures AfterDel(st, v) == Store(st.vars[v := NO_FLAGS], st.recorded - {v})
  {}

  lemma {:induction false} FollowedElsewhere(st: Store, after: Store, key: string, newkey: string, conds: seq<string>,
                                             k: string)
    requires FlagsFollowed(st, after, key, newkey, conds)
    requires ':' !in k || IsElsewhere(key, newkey, conds, k)
    ensures FlagsOf(after, k) == FlagsOf(st, k)
  {
    forall c ensures ':' in Variant(key, c) && ':' in Variant(newkey, c) {
      HasColon(key, c);
      HasColon(newkey, c);
    }
  }

  lemma {:induction false} FollowedVariant(st: Store, after: Store, key: string, newkey: string, conds: seq<string>,
                                           c: string)
    requires ':' !in key && ':' !in newkey && FlagsFollowed(st, after, key, newkey, conds) && c in conds
    ensures FlagsOf(after, Variant(newkey, c)) == Kept(FlagsOf(st, Variant(key, c)))
      && FlagsOf(after, Variant(key, c)) == NO_FLAGS
    ensures key != Variant(key, c) && key != Variant(newkey, c) && newkey != Variant(key, c)
      && newkey != Variant(newkey, c)
  {
    HasColon(key, c);
    HasColon(newkey, c);
  }

  // ----- what the new name reads -----

  // Without variants, the unexpanded value is the value and the operators.
  lemma {:induction false} RawOfPlain(st: Store, overrides: seq<string>, v: string, raw: Option<string>)
    requires ReadsRaw(st, overrides, v, raw) && RecordsOf(st, v) == []
    ensures raw == RawFrom(FlagsOf(st, v), None, overrides)
  {
    NothingToChoose(overrides);
  }

  // The unexpanded value, when no variant has variants itself.
  function RawThrough(st: Store, v: string, chosen: Option<string>, overrides: seq<string>): Option<string> {
    RawFrom(FlagsOf(st, v), if chosen.None? then None
      else RawFrom(FlagsOf(st, chosen.value), None, overrides), overrides)
  }

  lemma {:induction false} RawOfChosen(st: Store, overrides: seq<string>, v: string, raw: Option<string>)
    requires ReadsRaw(st, overrides, v, raw)
    requires var chosen := Chosen(RecordsOf(st, v), overrides); chosen.Some? ==> RecordsOf(st, chosen.value) == []
    ensures raw == RawThrough(st, v, Chosen(RecordsOf(st, v), overrides), overrides)
  {
    hide Chosen;
    var chosen := Chosen(RecordsOf(st, v), overrides);
    var variant :| VariantIs(st, overrides, v, variant) && raw == RawFrom(FlagsOf(st, v), variant.raw, overrides);
    if chosen.Some? {
      ReadsGiveRaw(st, overrides, chosen.value, variant);
      RawOfPlain(st, overrides, chosen.value, variant.raw);
    }
  }

  // Under any overrides, the new name has the unexpanded value that the old one had, whichever
  // variant is active.
  lemma {:induction false} RenameKeepsValue(st: Store, key: string, newkey: string, conds: seq<string>, depth: nat,
                                            overrides: seq<string>, raw: Option<string>, raw': Option<string>)
    requires depth > 1 && CanMove(st, key, newkey, conds)
    requires ReadsRaw(st, overrides, key, raw)
    requires var after := AfterRename(st, key, newkey, depth);
      after.Ok? ==> ReadsRaw(after.value, overrides, newkey, raw')
    ensures raw == raw'
  {
    hide Variant, CanFollow, AfterRename, Chosen, Variants, ReadsRaw;
    VariantsFollow(st, key, newkey, conds, depth);
    var after := AfterRename(st, key, newkey, depth).value;
    SameOverrideWins(key, newkey, conds, overrides);
    if Chosen(Variants(key, conds), overrides).Some? {
      var c :| c in conds && Chosen(Variants(key, conds), overrides) == Some(Variant(key, c))
        && Chosen(Variants(newkey, conds), overrides) == Some(Variant(newkey, c));
      assert RecordsOf(st, Variant(key, c)) == [] by { VariantIsPlain(st, key, newkey, c); }
    }
    RawOfChosen(st, overrides, key, raw);
    RawOfChosen(after, overrides, newkey, raw');
  }

  lemma VariantIsPlain(st: Store, key: string, newkey: string, c: string)
    requires CanFollow(st, key, newkey, c)
    ensures RecordsOf(st, Variant(key, c)) == []
  {}
}
