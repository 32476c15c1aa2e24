// Reads put together step by step, each step with whatever fuel it took.
module EvalSteps {
  import opened Prelude
  import opened Text
  import opened OverrideScan
  import opened Expansion

  ghost predicate SubsTo(st: Store, overrides: seq<string>, name: string, s: string, t: string, refs: set<string>) {
    exists n: nat :: Sub(st, overrides, n, name, s) == Ok((t, refs))
  }

  ghost predicate ExpandsTo(st: Store, overrides: seq<string>, name: string, s: string, t: string, refs: set<string>) {
    exists n: nat :: Expand(st, overrides, n, name, s) == Ok((t, refs))
  }

  ghost predicate WordsAre(st: Store, overrides: seq<string>, removes: set<string>, words: map<string, set<string>>) {
    exists n: nat :: RemoveWords(st, overrides, n, removes) == Ok(words)
  }

  lemma {:induction false} SubNothing(st: Store, overrides: seq<string>, name: string)
    ensures SubsTo(st, overrides, name, "", "", {})
  {
    assert Sub(st, overrides, 0, name, "") == Ok(("", {}));
  }

  lemma {:induction false} SubChar(st: Store, overrides: seq<string>, name: string, s: string, t: string,
                                   refs: set<string>)
    requires s != "" && RefAt(s).None? && SubsTo(st, overrides, name, s[1..], t, refs)
    ensures SubsTo(st, overrides, name, s, s[..1] + t, refs)
  {
    var n: nat :| Sub(st, overrides, n, name, s[1..]) == Ok((t, refs));
    assert Sub(st, overrides, n, name, s) == Ok((s[..1] + t, refs));
  }

  function Substituted(s: string, key: string, e: Entry): string
    requires |key| + 3 <= |s|
  {
    if e.value.Some? then e.value.value else s[..|key| + 3]
  }

  lemma {:induction false} SubRef(st: Store, overrides: seq<string>, name: string, s: string, key: string, e: Entry,
                                  t: string, refs: set<string>)
    requires RefAt(s) == Some(key) && key != name && Reads(st, overrides, key, e)
    requires SubsTo(st, overrides, name, s[|key| + 3..], t, refs)
    ensures SubsTo(st, overrides, name, s, Substituted(s, key, e) + t, {key} + refs)
  {
    hide Eval, Sub;
    var rest := s[|key| + 3..];
    var n: nat :| Eval(st, overrides, n, key) == Ok(e);
    var m: nat :| Sub(st, overrides, m, name, rest) == Ok((t, refs));
    EvalMono(st, overrides, n, n + m, key);
    SubMono(st, overrides, m, n + m, name, rest);
    SubRefWith(st, overrides, n + m, name, s, key, e, t, refs);
  }

  lemma {:induction false} SubRefWith(st: Store, overrides: seq<string>, n: nat, name: string, s: string, key: string,
                                      e: Entry, t: string, refs: set<string>)
    requires RefAt(s) == Some(key) && key != name && Eval(st, overrides, n, key) == Ok(e)
    requires Sub(st, overrides, n, name, s[|key| + 3..]) == Ok((t, refs))
    ensures Sub(st, overrides, n, name, s) == Ok((Substituted(s, key, e) + t, {key} + refs))
  {
    hide Eval;
    assert s != "";
  }

  lemma {:induction false} ExpandPlain(st: Store, overrides: seq<string>, name: string, s: string)
    requires !HasRef(s)
    ensures ExpandsTo(st, overrides, name, s, s, {})
  {
    assert Expand(st, overrides, 0, name, s) == Ok((s, {}));
  }

  lemma {:induction false} ExpandStable(st: Store, overrides: seq<string>, name: string, s: string, refs: set<string>)
    requires HasRef(s) && SubsTo(st, overrides, name, s, s, refs)
    ensures ExpandsTo(st, overrides, name, s, s, refs)
  {
    var n: nat :| Sub(st, overrides, n, name, s) == Ok((s, refs));
    assert Expand(st, overrides, n + 1, name, s) == Ok((s, refs));
  }

  lemma {:induction false} ExpandOnce(st: Store, overrides: seq<string>, name: string, s: string, t: string,
                                      refs: set<string>, u: string, more: set<string>)
    requires HasRef(s) && t != s && SubsTo(st, overrides, name, s, t, refs)
      && ExpandsTo(st, overrides, name, t, u, more)
    ensures ExpandsTo(st, overrides, name, s, u, refs + more)
  {
    hide Expand, Sub, HasRef;
    var n: nat :| Sub(st, overrides, n, name, s) == Ok((t, refs));
    var m: nat :| Expand(st, overrides, m, name, t) == Ok((u, more));
    SubMono(st, overrides, n, n + m, name, s);
    ExpandMono(st, overrides, m, n + m, name, t);
    ExpandWith(st, overrides, n + m, name, s, t, refs, u, more);
  }

  lemma {:induction false} ExpandWith(st: Store, overrides: seq<string>, n: nat, name: string, s: string, t: string,
                                      refs: set<string>, u: string, more: set<string>)
    requires HasRef(s) && t != s
    requires Sub(st, overrides, n, name, s) == Ok((t, refs)) && Expand(st, overrides, n, name, t) == Ok((u, more))
    ensures Expand(st, overrides, n + 1, name, s) == Ok((u, refs + more))
  {}

  // What the read of `v` gives once its parts are known.
  function Assemble(raw: Option<string>, value: Option<string>, refs: set<string>,
                    words: map<string, set<string>>): Entry {
    if OrEmpty(value) == "" || words == map[] then Entry(raw, value, refs, {})
      else Removed(raw, value.value, refs, words)
  }

  ghost predicate OptionExpandsTo(st: Store, overrides: seq<string>, name: string, s: Option<string>,
                                  t: Option<string>, refs: set<string>) {
    if s.None? then t == None && refs == {} else t.Some? && ExpandsTo(st, overrides, name, s.value, t.value, refs)
  }

  ghost predicate VariantIs(st: Store, overrides: seq<string>, v: string, variant: Entry) {
    var chosen := Chosen(RecordsOf(st, v), overrides);
    if chosen.None? then variant == NOTHING else Reads(st, overrides, chosen.value, variant)
  }

  lemma {:induction false} ReadVariant(st: Store, overrides: seq<string>, v: string, variant: Entry, n: nat, e: Entry)
    requires VariantIs(st, overrides, v, variant) && EvalFrom(st, overrides, n, v, variant) == Ok(e)
    ensures Reads(st, overrides, v, e)
  {
    var chosen := Chosen(RecordsOf(st, v), overrides);
    if chosen.None? {
      assert Eval(st, overrides, n + 1, v) == Ok(e);
    } else {
      var m: nat :| Eval(st, overrides, m, chosen.value) == Ok(variant);
      EvalMono(st, overrides, m, n + m, chosen.value);
      EvalFromMono(st, overrides, n, n + m, v, variant);
      assert Eval(st, overrides, n + m + 1, v) == Ok(e);
    }
  }

  lemma {:induction false} AssembleWith(st: Store, overrides: seq<string>, n: nat, v: string, variant: Entry,
                                        value: Option<string>, refs: set<string>, words: map<string, set<string>>)
    requires ExpandOption(st, overrides, n, v, RawFrom(FlagsOf(st, v), variant.raw, overrides)) == Ok((value, refs))
    requires OrEmpty(value) != "" ==>
      RemoveWords(st, overrides, n, variant.removes + ActiveTexts(FlagsOf(st, v).removes, overrides)) == Ok(words)
    ensures EvalFrom(st, overrides, n, v, variant) ==
      Ok(Assemble(RawFrom(FlagsOf(st, v), variant.raw, overrides), value, refs, words))
  {
    assert OrEmpty(value) != "" ==> words.Keys == variant.removes + ActiveTexts(FlagsOf(st, v).removes, overrides);
  }

  lemma {:induction false} ReadAll(st: Store, overrides: seq<string>, v: string, variant: Entry, value: Option<string>,
                                   refs: set<string>, words: map<string, set<string>>)
    requires VariantIs(st, overrides, v, variant)
    requires OptionExpandsTo(st, overrides, v, RawFrom(FlagsOf(st, v), variant.raw, overrides), value, refs)
    requires OrEmpty(value) != "" ==>
      WordsAre(st, overrides, variant.removes + ActiveTexts(FlagsOf(st, v).removes, overrides), words)
    ensures Reads(st, overrides, v, Assemble(RawFrom(FlagsOf(st, v), variant.raw, overrides), value, refs, words))
  {
    hide Eval, Chosen, ActiveTexts, RemoveWords, Assemble, FlagsOf;
    var raw := RawFrom(FlagsOf(st, v), variant.raw, overrides);
    var removes := variant.removes + ActiveTexts(FlagsOf(st, v).removes, overrides);
    var n: nat := 0;
    if raw.Some? {
      n :| Expand(st, overrides, n, v, raw.value) == Ok((value.value, refs));
    }
    var m: nat := 0;
    if OrEmpty(value) != "" {
      m :| RemoveWords(st, overrides, m, removes) == Ok(words);
      RemoveWordsMono(st, overrides, m, n + m, removes);
    }
    ExpandOptionMono(st, overrides, n, n + m, v, raw);
    AssembleWith(st, overrides, n + m, v, variant, value, refs, words);
    ReadVariant(st, overrides, v, variant, n + m, Assemble(raw, value, refs, words));
  }

  ghost predicate WordsOf(st: Store, overrides: seq<string>, r: string, w: set<string>) {
    exists t: string, refs: set<string> :: ExpandsTo(st, overrides, "", r, t, refs) && w == FieldSet(t)
  }

  lemma {:induction false} WordsTogether(st: Store, overrides: seq<string>, words: map<string, set<string>>)
    requires forall r :: r in words ==> WordsOf(st, overrides, r, words[r])
    ensures WordsAre(st, overrides, words.Keys, words)
  {
    var n := EnoughFuel(st, overrides, words, words.Keys);
    var found := RemoveWords(st, overrides, n, words.Keys);
    assert found.Ok?;
    assert found.value == words;
  }

  lemma {:induction false} EnoughFuel(st: Store, overrides: seq<string>, words: map<string, set<string>>,
                                      removes: set<string>) returns (n: nat)
    requires forall r :: r in words ==> WordsOf(st, overrides, r, words[r])
    requires removes <= words.Keys
    ensures forall r :: r in removes ==>
      Expand(st, overrides, n, "", r).Ok? && FieldSet(Expand(st, overrides, n, "", r).value.0) == words[r]
  {
    if removes == {} {
      n := 0;
    } else {
      var r :| r in removes;
      var m := EnoughFuel(st, overrides, words, removes - {r});
      var t, refs :| ExpandsTo(st, overrides, "", r, t, refs) && words[r] == FieldSet(t);
      var l: nat :| Expand(st, overrides, l, "", r) == Ok((t, refs));
      n := m + l;
      forall q | q in removes
        ensures Expand(st, overrides, n, "", q).Ok? && FieldSet(Expand(st, overrides, n, "", q).value.0) == words[q]
      {
        ExpandMono(st, overrides, if q == r then l else m, n, "", q);
      }
    }
  }

  lemma {:induction false} NoWords(st: Store, overrides: seq<string>)
    ensures WordsAre(st, overrides, {}, map[])
  {
    assert RemoveWords(st, overrides, 0, {}) == Ok(map[]);
  }

  lemma {:induction false} SubsToIsFunctional(st: Store, overrides: seq<string>, n: nat, name: string, s: string,
                                              t: string, refs: set<string>)
    requires SubsTo(st, overrides, name, s, t, refs) && Sub(st, overrides, n, name, s).Ok?
    ensures Sub(st, overrides, n, name, s) == Ok((t, refs))
  {
    var m: nat :| Sub(st, overrides, m, name, s) == Ok((t, refs));
    SubMono(st, overrides, n, n + m, name, s);
    SubMono(st, overrides, m, n + m, name, s);
  }

  // ----- the variables that a text refers to -----

  // Expanding the text as that of `name` comes upon `x`.
  ghost predicate RefersTo(st: Store, overrides: seq<string>, name: string, text: string, x: string) {
    exists t: string, refs: set<string> :: ExpandsTo(st, overrides, name, text, t, refs) && x in refs
  }

  // So does expanding the value of `v`, which is expanded already, once more.
  ghost predicate ValueRefersTo(st: Store, overrides: seq<string>, v: string, x: string) {
    exists e :: Reads(st, overrides, v, e) && e.value.Some? && RefersTo(st, overrides, v, e.value.value, x)
  }

  lemma {:induction false} ExpandsToIsFunctional(st: Store, overrides: seq<string>, name: string, s: string, t: string,
                                                 refs: set<string>, u: string, more: set<string>)
    requires ExpandsTo(st, overrides, name, s, t, refs) && ExpandsTo(st, overrides, name, s, u, more)
    ensures t == u && refs == more
  {
    hide Expand;
    var n: nat :| Expand(st, overrides, n, name, s) == Ok((t, refs));
    var m: nat :| Expand(st, overrides, m, name, s) == Ok((u, more));
    ExpandMono(st, overrides, n, n + m, name, s);
    ExpandMono(st, overrides, m, n + m, name, s);
  }

  lemma {:induction false} RefersToThose(st: Store, overrides: seq<string>, name: string, s: string, t: string,
                                         refs: set<string>)
    requires ExpandsTo(st, overrides, name, s, t, refs)
    ensures forall x :: RefersTo(st, overrides, name, s, x) <==> x in refs
  {
    hide ExpandsTo;
    forall x | RefersTo(st, overrides, name, s, x) ensures x in refs {
      var u, more :| ExpandsTo(st, overrides, name, s, u, more) && x in more;
      ExpandsToIsFunctional(st, overrides, name, s, t, refs, u, more);
    }
  }

  lemma {:induction false} ValueRefersToThose(st: Store, overrides: seq<string>, v: string, e: Entry, t: string,
                                              refs: set<string>)
    requires Reads(st, overrides, v, e)
    requires e.value.Some? ==> ExpandsTo(st, overrides, v, e.value.value, t, refs)
    ensures forall x :: ValueRefersTo(st, overrides, v, x) <==> e.value.Some? && x in refs
  {
    hide ExpandsTo, Reads, RefersTo;
    if e.value.Some? {
      RefersToThose(st, overrides, v, e.value.value, t, refs);
    }
    forall x | ValueRefersTo(st, overrides, v, x) ensures e.value.Some? && x in refs {
      var f :| Reads(st, overrides, v, f) && f.value.Some? && RefersTo(st, overrides, v, f.value.value, x);
      ReadsIsFunctional(st, overrides, v, e, f);
    }
  }
}
