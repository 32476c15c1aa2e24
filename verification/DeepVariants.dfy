// Variants of several segments (data_smart.py:640-656, 713-738, 789-821): `k:a:b` is a variant of `k:a` for
// the override b, and of `k` for the override a:b.
module DeepVariants {
  import opened Prelude
  import opened Text
  import opened OverrideScan
  import opened OverrideOrder
  import opened OverrideChoice
  import opened OverrideNames
  import opened Expansion
  import opened EvalSteps
  import opened StoreOps
  import opened StoreLaws
  import opened ReadBack

  // `k` with the first `i` segments behind it
  function Prefix(k: string, segs: seq<string>, i: nat): string
    requires i <= |segs|
  {
    if i == 0 then k else Prefix(k, segs, i - 1) + ":" + segs[i - 1]
  }

  function Name(k: string, segs: seq<string>): string {
    Prefix(k, segs, |segs|)
  }

  // The override for which the name is a variant of its prefix.
  function Rest(segs: seq<string>, i: nat): string
    requires i <= |segs|
  {
    Join(segs[i..], ':')
  }

  predicate AreOverrides(k: string, segs: seq<string>) {
    && k != "" && ':' !in k && segs != [] && NoColons(segs)
    && forall i :: 0 <= i < |segs| ==> StartsAsOverride(segs[i])
  }

  lemma {:induction false} PrefixAndRest(k: string, segs: seq<string>, i: nat)
    requires i < |segs|
    ensures Name(k, segs) == Prefix(k, segs, i) + ":" + Rest(segs, i)
    decreases |segs| - i
  {
    assert segs[i..] == [segs[i]] + segs[i + 1..];
    if i + 1 < |segs| {
      PrefixAndRest(k, segs, i + 1);
      JoinCons(segs[i], segs[i + 1..], ':');
    }
  }

  lemma {:induction false} RestIsOverride(segs: seq<string>, i: nat)
    requires i < |segs| && StartsAsOverride(segs[i])
    ensures IsOverride(Rest(segs, i))
  {
    StartsIsOverride(segs[i]);
    hide StartsAsOverride;
    assert segs[i..] == [segs[i]] + segs[i + 1..];
    if i + 1 < |segs| {
      JoinCons(segs[i], segs[i + 1..], ':');
    }
  }

  lemma {:induction false} PrefixesGrow(k: string, segs: seq<string>, i: nat, j: nat)
    requires i < j <= |segs|
    ensures |Prefix(k, segs, i)| < |Prefix(k, segs, j)|
  {
    if i + 1 < j {
      PrefixesGrow(k, segs, i, j - 1);
    }
  }

  lemma {:induction false} ShorterPrefix(k: string, segs: seq<string>, i: nat)
    requires 0 < i <= |segs| && AreOverrides(k, segs)
    ensures LastColon(Prefix(k, segs, i)) == Some(|Prefix(k, segs, i - 1)|) && Prefix(k, segs, i - 1) != ""
  {
    hide StartsAsOverride;
    assert segs[i - 1] in segs;
    LastColonIs(Prefix(k, segs, i - 1), segs[i - 1]);
  }

  // ----- what is recorded -----

  function At(recorded: map<string, seq<Record>>, k: string): seq<Record> {
    if k in recorded then recorded[k] else []
  }

  function Added(l: seq<Record>, r: Record): seq<Record> {
    if r in l then l else l + [r]
  }

  // The first `n` prefixes have the name recorded, and the others what they had.
  ghost predicate Recorded(before: map<string, seq<Record>>, after: map<string, seq<Record>>, k: string,
                           segs: seq<string>, n: nat)
    requires n <= |segs|
  {
    && (forall i :: 0 <= i < n ==>
      At(after, Prefix(k, segs, i)) ==
        Added(At(before, Prefix(k, segs, i)), Record(Name(k, segs), Rest(segs, i))))
    && (forall key :: (forall i :: 0 <= i < n ==> key != Prefix(k, segs, i)) ==> At(after, key) == At(before, key))
  }

  ghost predicate Forgotten(before: map<string, seq<Record>>, after: map<string, seq<Record>>, k: string,
                            segs: seq<string>, n: nat)
    requires n <= |segs|
  {
    && (forall i :: 0 <= i < n ==>
      At(after, Prefix(k, segs, i)) ==
        RemoveFirst(At(before, Prefix(k, segs, i)), Record(Name(k, segs), Rest(segs, i))))
    && (forall key :: (forall i :: 0 <= i < n ==> key != Prefix(k, segs, i)) ==> At(after, key) == At(before, key))
  }

  // Where the loop over the colons stands when it comes to prefix `i`.
  lemma {:induction false} LoopAt(k: string, segs: seq<string>, i: nat)
    requires i < |segs| && AreOverrides(k, segs)
    ensures var (v, short) := (Name(k, segs), Prefix(k, segs, i));
      && short <= v && |short| < |v| && v[..|short|] == short && v[|short| + 1..] == Rest(segs, i)
      && IsOverride(Rest(segs, i))
      && (i == 0 ==> LastColon(short).None?)
      && (i > 0 ==>
        var next := Prefix(k, segs, i - 1);
        LastColon(short) == Some(|next|) && next != "" && short[..|next|] == next && v[..|next|] == next)
  {
    PrefixAndRest(k, segs, i);
    RestIsOverride(segs, i);
    hide StartsAsOverride;
    if i > 0 {
      ShorterPrefix(k, segs, i);
    }
  }

  lemma AddedAt(recorded: map<string, seq<Record>>, k: string, r: Record, key: string)
    ensures At(AddRecord(recorded, k, r), key) == if key == k then Added(At(recorded, k), r) else At(recorded, key)
  {}

  lemma DroppedAt(recorded: map<string, seq<Record>>, k: string, r: Record, key: string)
    ensures At(DropRecord(recorded, k, r), key) ==
      if key == k then RemoveFirst(At(recorded, k), r) else At(recorded, key)
  {}

  lemma {:induction false} RecordStep(recorded: map<string, seq<Record>>, k: string, segs: seq<string>, i: nat)
    requires i < |segs| && AreOverrides(k, segs)
    ensures Prefix(k, segs, i) <= Name(k, segs) && (i > 0 ==> Prefix(k, segs, i - 1) <= Name(k, segs))
    ensures var v := Name(k, segs);
      var next := AddRecord(recorded, Prefix(k, segs, i), Record(v, Rest(segs, i)));
      RecordAt(recorded, v, Prefix(k, segs, i), Rest(segs, i)) ==
        if i == 0 then next else RecordAt(next, v, Prefix(k, segs, i - 1), Rest(segs, i - 1))
  {
    hide AreOverrides, Rest, IsOverride, LastColon, AddRecord, Prefix, Name;
    LoopAt(k, segs, i);
    if i > 0 {
      LoopAt(k, segs, i - 1);
    }
  }

  lemma {:induction false} UnrecordStep(recorded: map<string, seq<Record>>, k: string, segs: seq<string>, i: nat)
    requires i < |segs| && AreOverrides(k, segs)
    ensures Prefix(k, segs, i) <= Name(k, segs) && (i > 0 ==> Prefix(k, segs, i - 1) <= Name(k, segs))
    ensures var v := Name(k, segs);
      var next := DropRecord(recorded, Prefix(k, segs, i), Record(v, Rest(segs, i)));
      UnrecordAt(recorded, v, Prefix(k, segs, i), Rest(segs, i)) ==
        if i == 0 then next else UnrecordAt(next, v, Prefix(k, segs, i - 1), Rest(segs, i - 1))
  {
    hide AreOverrides, Rest, IsOverride, LastColon, DropRecord, Prefix, Name;
    LoopAt(k, segs, i);
    if i > 0 {
      LoopAt(k, segs, i - 1);
    }
  }

  lemma {:induction false} RecordedFrom(recorded: map<string, seq<Record>>, k: string, segs: seq<string>, i: nat)
    requires i < |segs| && AreOverrides(k, segs) && Prefix(k, segs, i) <= Name(k, segs)
    ensures Recorded(recorded, RecordAt(recorded, Name(k, segs), Prefix(k, segs, i), Rest(segs, i)), k, segs, i + 1)
    decreases i
  {
    hide AreOverrides, Rest, RecordAt, AddRecord, At, Added;
    RecordStep(recorded, k, segs, i);
    forall j | 0 <= j < i ensures Prefix(k, segs, j) != Prefix(k, segs, i) {
      PrefixesGrow(k, segs, j, i);
    }
    hide Prefix, Name;
    var r := Record(Name(k, segs), Rest(segs, i));
    forall key { AddedAt(recorded, Prefix(k, segs, i), r, key); }
    if i > 0 {
      RecordedFrom(AddRecord(recorded, Prefix(k, segs, i), r), k, segs, i - 1);
    }
  }

  lemma {:induction false} ForgottenFrom(recorded: map<string, seq<Record>>, k: string, segs: seq<string>, i: nat)
    requires i < |segs| && AreOverrides(k, segs) && Prefix(k, segs, i) <= Name(k, segs)
    ensures Forgotten(recorded, UnrecordAt(recorded, Name(k, segs), Prefix(k, segs, i), Rest(segs, i)), k, segs, i + 1)
    decreases i
  {
    hide AreOverrides, Rest, UnrecordAt, DropRecord, At, RemoveFirst;
    UnrecordStep(recorded, k, segs, i);
    forall j | 0 <= j < i ensures Prefix(k, segs, j) != Prefix(k, segs, i) {
      PrefixesGrow(k, segs, j, i);
    }
    hide Prefix, Name;
    var r := Record(Name(k, segs), Rest(segs, i));
    forall key { DroppedAt(recorded, Prefix(k, segs, i), r, key); }
    if i > 0 {
      ForgottenFrom(DropRecord(recorded, Prefix(k, segs, i), r), k, segs, i - 1);
    }
  }

  lemma {:induction false} NameStarts(recorded: map<string, seq<Record>>, k: string, segs: seq<string>)
    requires AreOverrides(k, segs)
    ensures var (v, n) := (Name(k, segs), |segs| - 1);
      && n >= 0 && Prefix(k, segs, n) <= v
      && RecordName(recorded, v) == RecordAt(recorded, v, Prefix(k, segs, n), Rest(segs, n))
      && UnrecordName(recorded, v) == UnrecordAt(recorded, v, Prefix(k, segs, n), Rest(segs, n))
  {
    hide Rest, RecordAt, UnrecordAt, LastColon, IsOverride;
    var n := |segs| - 1;
    ShorterPrefix(k, segs, |segs|);
    LoopAt(k, segs, n);
    hide AreOverrides, Prefix;
    assert Name(k, segs) == Prefix(k, segs, |segs|);
  }

  // The name is recorded once under each of its prefixes, for the rest of its segments.
  lemma {:induction false} EveryPrefixRecords(recorded: map<string, seq<Record>>, k: string, segs: seq<string>)
    requires AreOverrides(k, segs)
    ensures Recorded(recorded, RecordName(recorded, Name(k, segs)), k, segs, |segs|)
  {
    hide Rest, RecordAt, RecordName, Recorded, Prefix, Name, StartsAsOverride;
    NameStarts(recorded, k, segs);
    RecordedFrom(recorded, k, segs, |segs| - 1);
  }

  lemma {:induction false} EveryPrefixForgets(recorded: map<string, seq<Record>>, k: string, segs: seq<string>)
    requires AreOverrides(k, segs)
    ensures Forgotten(recorded, UnrecordName(recorded, Name(k, segs)), k, segs, |segs|)
  {
    hide Rest, UnrecordAt, UnrecordName, Forgotten, Prefix, Name, StartsAsOverride;
    NameStarts(recorded, k, segs);
    ForgottenFrom(recorded, k, segs, |segs| - 1);
  }

  // Recording the name again changes nothing.
  lemma {:induction false} RecordedOnce(recorded: map<string, seq<Record>>, k: string, segs: seq<string>, key: string)
    requires AreOverrides(k, segs)
    ensures var once := RecordName(recorded, Name(k, segs)); At(RecordName(once, Name(k, segs)), key) == At(once, key)
  {
    hide AreOverrides, Rest, RecordName, Prefix, Name;
    var once := RecordName(recorded, Name(k, segs));
    EveryPrefixRecords(recorded, k, segs);
    EveryPrefixRecords(once, k, segs);
    if i :| 0 <= i < |segs| && key == Prefix(k, segs, i) {
      assert At(once, Prefix(k, segs, i)) ==
        Added(At(recorded, Prefix(k, segs, i)), Record(Name(k, segs), Rest(segs, i)));
    }
  }

  // ----- reading -----

  // With one recorded override, it is picked exactly when all its segments are in force.
  lemma {:induction false} OnlyDeepRecord(name: string, segs: seq<string>, overrides: seq<string>)
    requires segs != [] && NoColons(segs) && NoColons(overrides) && CleanSegments(segs)
    ensures Chosen([Record(name, Join(segs, ':'))], overrides) ==
      if forall s :: s in segs ==> s in overrides then Some(name) else None
  {
    hide Chosen, Join, Split, CleanSegments;
    var r := Record(name, Join(segs, ':'));
    SplitJoin(segs, ':');
    assert Segments(r.cond) == segs && [r][0] == r && r in [r];
    ChosenIsWinner([r], overrides);
    ChosenIsRecorded([r], overrides);
  }

  lemma {:induction false} DeepIsWritten(st: Store, k: string, segs: seq<string>, i: nat, own: string, x: string,
                                         parsing: bool, used: seq<string>)
    requires AreOverrides(k, segs) && ParseName(Name(k, segs)).None? && i < |segs|
    requires StandsAlone(st, Prefix(k, segs, i), own)
    requires FlagsOf(st, Name(k, segs)) == NO_FLAGS && RecordsOf(st, Name(k, segs)) == []
    ensures var (w, short, after) :=
        (Name(k, segs), Prefix(k, segs, i), AfterSetVar(st, Name(k, segs), x, parsing, used));
      && StandsAlone(after, w, x) && FlagsOf(after, short) == FlagsOf(st, short)
      && RecordsOf(after, short) == [Record(w, Rest(segs, i))]
  {
    hide ParseFrom, AreOverrides, Rest;
    var (w, short) := (Name(k, segs), Prefix(k, segs, i));
    PrefixesGrow(k, segs, i, |segs|);
    hide Prefix, Name;
    var cleared := if parsing then st else Cleared(st, w, used);
    NothingToClear(st, w, short, used);
    hide Cleared, WithContent, ParseName;
    ContentIsWritten(cleared, k, segs, i, x);
  }

  // Clearing a variable that is not there leaves it and others as they are.
  lemma {:induction false} NothingToClear(st: Store, w: string, short: string, used: seq<string>)
    requires FlagsOf(st, w) == NO_FLAGS && RecordsOf(st, w) == [] && short != w
    ensures var cleared := Cleared(st, w, used);
      && FlagsOf(cleared, w) == NO_FLAGS && FlagsOf(cleared, short) == FlagsOf(st, short)
      && RecordsOf(cleared, w) == [] && RecordsOf(cleared, short) == RecordsOf(st, short)
  {}

  lemma {:induction false} RecordedUnder(recorded: map<string, seq<Record>>, k: string, segs: seq<string>, i: nat)
    requires AreOverrides(k, segs) && i < |segs|
    ensures var (w, short, after) := (Name(k, segs), Prefix(k, segs, i), RecordName(recorded, Name(k, segs)));
      && At(after, short) == Added(At(recorded, short), Record(w, Rest(segs, i))) && At(after, w) == At(recorded, w)
  {
    hide RecordName, AreOverrides, Rest, At;
    EveryPrefixRecords(recorded, k, segs);
    forall j | 0 <= j < |segs| ensures Prefix(k, segs, j) != Name(k, segs) {
      PrefixesGrow(k, segs, j, |segs|);
    }
  }

  lemma {:induction false} ContentIsWritten(st: Store, k: string, segs: seq<string>, i: nat, x: string)
    requires AreOverrides(k, segs) && i < |segs| && RecordsOf(st, Prefix(k, segs, i)) == []
    requires FlagsOf(st, Name(k, segs)) == NO_FLAGS && RecordsOf(st, Name(k, segs)) == []
    ensures var (w, short, after) := (Name(k, segs), Prefix(k, segs, i), WithContent(st, Name(k, segs), x));
      && StandsAlone(after, w, x) && FlagsOf(after, short) == FlagsOf(st, short)
      && RecordsOf(after, short) == [Record(w, Rest(segs, i))]
  {
    hide RecordName, AreOverrides, Rest, LastColon;
    var (w, short, r) := (Name(k, segs), Prefix(k, segs, i), Record(Name(k, segs), Rest(segs, i)));
    PrefixAndRest(k, segs, i);
    assert w[|short|] == ':' && short != w;
    var recorded := RecordName(st.recorded, w);
    RecordedUnder(st.recorded, k, segs, i);
    hide Prefix, Name;
    assert [] + [r] == [r];
  }

  // After `setVar("k:a:b", x)` each of `k` and `k:a` has the unexpanded value x if all the other segments are
  // in force, and its own value if not.
  lemma {:induction false} DeepVariantReadsBack(st: Store, k: string, segs: seq<string>, i: nat, own: string,
                                                x: string, parsing: bool, used: seq<string>, overrides: seq<string>)
    requires AreOverrides(k, segs) && ParseName(Name(k, segs)).None? && i < |segs|
    requires StandsAlone(st, Prefix(k, segs, i), own)
    requires FlagsOf(st, Name(k, segs)) == NO_FLAGS && RecordsOf(st, Name(k, segs)) == []
    requires NoColons(overrides) && CleanSegments(segs[i..])
    ensures var after := AfterSetVar(st, Name(k, segs), x, parsing, used);
      var text := if forall s :: s in segs[i..] ==> s in overrides then x else own;
      && (forall raw :: ReadsRaw(after, overrides, Prefix(k, segs, i), raw) ==> raw == Some(text))
      && (!HasRef(text) ==> Reads(after, overrides, Prefix(k, segs, i), Entry(Some(text), Some(text), {}, {})))
  {
    assert NoColons(segs[i..]);
    hide ParseFrom, Chosen, Eval, HasRef, AfterSetVar, AreOverrides, CleanSegments, Prefix, Name;
    var (w, short, after) := (Name(k, segs), Prefix(k, segs, i), AfterSetVar(st, Name(k, segs), x, parsing, used));
    DeepIsWritten(st, k, segs, i, own, x, parsing, used);
    OnlyDeepRecord(w, segs[i..], overrides);
    if forall s :: s in segs[i..] ==> s in overrides {
      AloneReads(after, overrides, w, x);
      forall raw | ReadsRaw(after, overrides, short, raw) ensures raw == Some(x) {
        var variant :| VariantIs(after, overrides, short, variant)
          && raw == RawFrom(FlagsOf(after, short), variant.raw, overrides);
        ReadsGiveRaw(after, overrides, w, variant);
      }
      if !HasRef(x) { VariantTakesOver(after, overrides, short, w, x); }
    } else {
      OwnValueReads(after, overrides, short, own);
    }
  }

  // Deleting the variant undoes the write of it, for each of its prefixes.
  lemma {:induction false} DeletedDeepIsForgotten(st: Store, k: string, segs: seq<string>, i: nat, own: string,
                                                  x: string, parsing: bool, used: seq<string>)
    requires AreOverrides(k, segs) && ParseName(Name(k, segs)).None? && i < |segs|
    requires StandsAlone(st, Prefix(k, segs, i), own)
    requires FlagsOf(st, Name(k, segs)) == NO_FLAGS && RecordsOf(st, Name(k, segs)) == []
    ensures StandsAlone(AfterDel(AfterSetVar(st, Name(k, segs), x, parsing, used), Name(k, segs)),
                        Prefix(k, segs, i), own)
  {
    hide ParseFrom, UnrecordName, AfterSetVar, AreOverrides, Rest;
    var (w, short) := (Name(k, segs), Prefix(k, segs, i));
    var mid := AfterSetVar(st, w, x, parsing, used);
    DeepIsWritten(st, k, segs, i, own, x, parsing, used);
    PrefixesGrow(k, segs, i, |segs|);
    hide Prefix, Name;
    EveryPrefixForgets(mid.recorded - {w}, k, segs);
    var r := Record(w, Rest(segs, i));
    assert At(mid.recorded - {w}, short) == [r] && RemoveFirst([r], r) == [];
  }
}
