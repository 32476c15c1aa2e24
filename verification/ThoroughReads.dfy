// Reads that finish whichever way the program takes (data_smart.py:771-901). A variant is read with
// expand=False; then its `:remove` texts are expanded whenever the unexpanded value is not empty, even
// if the value turns out to be empty and nothing is removed from it.
module ThoroughReads {
  import opened Prelude
  import opened Text
  import opened OverrideScan
  import opened Expansion
  import opened EvalSteps
  import opened OverrideRounds

  predicate Thorough(st: Store, overrides: seq<string>, n: nat, v: string)
    decreases n, 0, 0
  {
    n > 0 &&
    var chosen := Chosen(RecordsOf(st, v), overrides);
    var variant := EvalVariant(st, overrides, n - 1, chosen);
    && (chosen.Some? ==> Thorough(st, overrides, n - 1, chosen.value))
    && variant.Ok? && ThoroughFrom(st, overrides, n - 1, v, variant.value)
  }

  predicate ThoroughFrom(st: Store, overrides: seq<string>, n: nat, v: string, variant: Entry)
    decreases n, 4, 0
  {
    var raw := RawFrom(FlagsOf(st, v), variant.raw, overrides);
    OrEmpty(raw) != "" ==>
      && ThoroughText(st, overrides, n, v, raw.value)
      && ThoroughTexts(st, overrides, n, variant.removes + ActiveTexts(FlagsOf(st, v).removes, overrides))
  }

  predicate ThoroughTexts(st: Store, overrides: seq<string>, n: nat, texts: set<string>)
    decreases n, 3, 0
  {
    forall r :: r in texts ==> ThoroughText(st, overrides, n, "", r)
  }

  predicate ThoroughText(st: Store, overrides: seq<string>, n: nat, name: string, s: string)
    decreases n, 2, 0
  {
    HasRef(s) ==>
      && n > 0 && ThoroughSub(st, overrides, n - 1, name, s)
      && var t := Sub(st, overrides, n - 1, name, s);
         t.Ok? && (t.value.0 != s ==> ThoroughText(st, overrides, n - 1, name, t.value.0))
  }

  predicate ThoroughSub(st: Store, overrides: seq<string>, n: nat, name: string, s: string)
    decreases n, 1, |s|
  {
    if s == "" then true
    else match RefAt(s)
      case None => ThoroughSub(st, overrides, n, name, s[1..])
      case Some(key) =>
        key != name && Thorough(st, overrides, n, key) && ThoroughSub(st, overrides, n, name, s[|key| + 3..])
  }

  // ----- such a read has a result -----

  lemma {:induction false} ThoroughIsOk(st: Store, overrides: seq<string>, n: nat, v: string)
    requires Thorough(st, overrides, n, v)
    ensures Eval(st, overrides, n, v).Ok?
    decreases n, 0, 0
  {
    var variant := EvalVariant(st, overrides, n - 1, Chosen(RecordsOf(st, v), overrides)).value;
    ThoroughFromIsOk(st, overrides, n - 1, v, variant);
  }

  lemma {:induction false} ThoroughFromIsOk(st: Store, overrides: seq<string>, n: nat, v: string, variant: Entry)
    requires ThoroughFrom(st, overrides, n, v, variant)
    ensures EvalFrom(st, overrides, n, v, variant).Ok?
    decreases n, 4, 0
  {
    var raw := RawFrom(FlagsOf(st, v), variant.raw, overrides);
    if OrEmpty(raw) != "" {
      ThoroughTextIsOk(st, overrides, n, v, raw.value);
      forall r | r in variant.removes + ActiveTexts(FlagsOf(st, v).removes, overrides)
        ensures Expand(st, overrides, n, "", r).Ok? {
        ThoroughTextIsOk(st, overrides, n, "", r);
      }
      assert ExpandOption(st, overrides, n, v, raw).Ok?;
      assert RemoveWords(st, overrides, n, variant.removes + ActiveTexts(FlagsOf(st, v).removes, overrides)).Ok?;
    } else {
      assert raw.Some? ==> Expand(st, overrides, n, v, "") == Ok(("", {}));
    }
  }

  lemma {:induction false} ThoroughTextIsOk(st: Store, overrides: seq<string>, n: nat, name: string, s: string)
    requires ThoroughText(st, overrides, n, name, s)
    ensures Expand(st, overrides, n, name, s).Ok?
    decreases n, 2, 0
  {
    if HasRef(s) {
      var t := Sub(st, overrides, n - 1, name, s).value.0;
      if t != s {
        ThoroughTextIsOk(st, overrides, n - 1, name, t);
      }
    }
  }

  lemma {:induction false} ThoroughSubIsOk(st: Store, overrides: seq<string>, n: nat, name: string, s: string)
    requires ThoroughSub(st, overrides, n, name, s)
    ensures Sub(st, overrides, n, name, s).Ok?
    decreases n, 1, |s|
  {
    if s != "" {
      match RefAt(s)
      case None => ThoroughSubIsOk(st, overrides, n, name, s[1..]);
      case Some(key) =>
        ThoroughIsOk(st, overrides, n, key);
        ThoroughSubIsOk(st, overrides, n, name, s[|key| + 3..]);
    }
  }

  // ----- more depth does no harm -----

  lemma {:induction false} ThoroughMono(st: Store, overrides: seq<string>, n: nat, m: nat, v: string)
    requires n <= m && Thorough(st, overrides, n, v)
    ensures Thorough(st, overrides, m, v)
    decreases n, 0, 0
  {
    var chosen := Chosen(RecordsOf(st, v), overrides);
    var variant := EvalVariant(st, overrides, n - 1, chosen).value;
    if chosen.Some? {
      ThoroughMono(st, overrides, n - 1, m - 1, chosen.value);
      EvalMono(st, overrides, n - 1, m - 1, chosen.value);
    }
    ThoroughFromMono(st, overrides, n - 1, m - 1, v, variant);
  }

  lemma {:induction false} ThoroughFromMono(st: Store, overrides: seq<string>, n: nat, m: nat, v: string,
                                            variant: Entry)
    requires n <= m && ThoroughFrom(st, overrides, n, v, variant)
    ensures ThoroughFrom(st, overrides, m, v, variant)
    decreases n, 4, 0
  {
    var raw := RawFrom(FlagsOf(st, v), variant.raw, overrides);
    if OrEmpty(raw) != "" {
      ThoroughTextMono(st, overrides, n, m, v, raw.value);
      forall r | r in variant.removes + ActiveTexts(FlagsOf(st, v).removes, overrides)
        ensures ThoroughText(st, overrides, m, "", r) {
        ThoroughTextMono(st, overrides, n, m, "", r);
      }
    }
  }

  lemma {:induction false} ThoroughTextMono(st: Store, overrides: seq<string>, n: nat, m: nat, name: string, s: string)
    requires n <= m && ThoroughText(st, overrides, n, name, s)
    ensures ThoroughText(st, overrides, m, name, s)
    decreases n, 2, 0
  {
    if HasRef(s) {
      ThoroughSubMono(st, overrides, n - 1, m - 1, name, s);
      SubMono(st, overrides, n - 1, m - 1, name, s);
      var t := Sub(st, overrides, n - 1, name, s).value.0;
      if t != s {
        ThoroughTextMono(st, overrides, n - 1, m - 1, name, t);
      }
    }
  }

  lemma {:induction false} ThoroughSubMono(st: Store, overrides: seq<string>, n: nat, m: nat, name: string, s: string)
    requires n <= m && ThoroughSub(st, overrides, n, name, s)
    ensures ThoroughSub(st, overrides, m, name, s)
    decreases n, 1, |s|
  {
    if s != "" {
      match RefAt(s)
      case None => ThoroughSubMono(st, overrides, n, m, name, s[1..]);
      case Some(key) =>
        ThoroughMono(st, overrides, n, m, key);
        ThoroughSubMono(st, overrides, n, m, name, s[|key| + 3..]);
    }
  }

  // ----- what it touches is read thoroughly too -----

  ghost predicate ReadWithin(st: Store, overrides: seq<string>, u: string, names: set<string>) {
    exists m: nat :: Thorough(st, overrides, m, u) && EvalTouches(st, overrides, m, u) <= names
  }

  lemma {:induction false} WithinMore(st: Store, overrides: seq<string>, u: string, names: set<string>,
                                      more: set<string>)
    requires ReadWithin(st, overrides, u, names) && names <= more
    ensures ReadWithin(st, overrides, u, more)
  {
    var m: nat :| Thorough(st, overrides, m, u) && EvalTouches(st, overrides, m, u) <= names;
    assert EvalTouches(st, overrides, m, u) <= more;
  }

  lemma {:induction false} TouchedIsRead(st: Store, overrides: seq<string>, n: nat, v: string, u: string)
    requires Thorough(st, overrides, n, v) && u in EvalTouches(st, overrides, n, v)
    ensures ReadWithin(st, overrides, u, EvalTouches(st, overrides, n, v))
    decreases n, 0, 0
  {
    var names := EvalTouches(st, overrides, n, v);
    if u == v {
      assert EvalTouches(st, overrides, n, v) <= names;
    } else {
      var chosen := Chosen(RecordsOf(st, v), overrides);
      var variant := EvalVariant(st, overrides, n - 1, chosen).value;
      if chosen.Some? && u in EvalTouches(st, overrides, n - 1, chosen.value) {
        TouchedIsRead(st, overrides, n - 1, chosen.value, u);
        WithinMore(st, overrides, u, EvalTouches(st, overrides, n - 1, chosen.value), names);
      } else {
        FromTouchedIsRead(st, overrides, n - 1, v, variant, u);
        WithinMore(st, overrides, u, FromTouches(st, overrides, n - 1, v, variant), names);
      }
    }
  }

  lemma {:induction false} FromTouchedIsRead(st: Store, overrides: seq<string>, n: nat, v: string, variant: Entry,
                                             u: string)
    requires ThoroughFrom(st, overrides, n, v, variant) && u in FromTouches(st, overrides, n, v, variant)
    ensures ReadWithin(st, overrides, u, FromTouches(st, overrides, n, v, variant))
    decreases n, 4, 0
  {
    var raw := RawFrom(FlagsOf(st, v), variant.raw, overrides);
    var removes := variant.removes + ActiveTexts(FlagsOf(st, v).removes, overrides);
    var names := FromTouches(st, overrides, n, v, variant);
    if u in ExpandTouches(st, overrides, n, v, raw.value) {
      TextTouchedIsRead(st, overrides, n, v, raw.value, u);
      WithinMore(st, overrides, u, ExpandTouches(st, overrides, n, v, raw.value), names);
    } else {
      var r :| r in removes && u in ExpandTouches(st, overrides, n, "", r);
      TextTouchedIsRead(st, overrides, n, "", r, u);
      assert ExpandTouches(st, overrides, n, "", r) <= RemovesTouch(st, overrides, n, removes);
      WithinMore(st, overrides, u, ExpandTouches(st, overrides, n, "", r), names);
    }
  }

  lemma {:induction false} TextTouchedIsRead(st: Store, overrides: seq<string>, n: nat, name: string, s: string,
                                             u: string)
    requires ThoroughText(st, overrides, n, name, s) && u in ExpandTouches(st, overrides, n, name, s)
    ensures ReadWithin(st, overrides, u, ExpandTouches(st, overrides, n, name, s))
    decreases n, 2, 0
  {
    var names := ExpandTouches(st, overrides, n, name, s);
    if u in SubTouches(st, overrides, n - 1, name, s) {
      SubTouchedIsRead(st, overrides, n - 1, name, s, u);
      WithinMore(st, overrides, u, SubTouches(st, overrides, n - 1, name, s), names);
    } else {
      var t := Sub(st, overrides, n - 1, name, s).value.0;
      if t != s {
        TextTouchedIsRead(st, overrides, n - 1, name, t, u);
        WithinMore(st, overrides, u, ExpandTouches(st, overrides, n - 1, name, t), names);
      }
    }
  }

  lemma {:induction false} SubTouchedIsRead(st: Store, overrides: seq<string>, n: nat, name: string, s: string,
                                            u: string)
    requires ThoroughSub(st, overrides, n, name, s) && u in SubTouches(st, overrides, n, name, s)
    ensures ReadWithin(st, overrides, u, SubTouches(st, overrides, n, name, s))
    decreases n, 1, |s|
  {
    match RefAt(s)
    case None => SubTouchedIsRead(st, overrides, n, name, s[1..], u);
    case Some(key) =>
      var names := SubTouches(st, overrides, n, name, s);
      if u in EvalTouches(st, overrides, n, key) {
        TouchedIsRead(st, overrides, n, key, u);
        WithinMore(st, overrides, u, EvalTouches(st, overrides, n, key), names);
      } else {
        SubTouchedIsRead(st, overrides, n, name, s[|key| + 3..], u);
        WithinMore(st, overrides, u, SubTouches(st, overrides, n, name, s[|key| + 3..]), names);
      }
  }
}
