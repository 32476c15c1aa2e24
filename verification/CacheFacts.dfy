// What is true of a datastore's cache and of the reads that fill it (data_smart.py:488-510, 771-901), as
// statements on values.
module CacheFacts {
  import opened Prelude
  import opened Text
  import opened Words
  import opened OverrideScan
  import opened OverrideNames
  import opened Expansion
  import opened OverrideRounds
  import opened EvalSteps
  import opened ThoroughReads
  import opened StoreOps
  import opened StoreLaws
  import opened StoreRename

  // ----- facts that hold while some overrides are in force -----

  // With no overrides settled yet, a fact must hold whatever they turn out to be.
  predicate Allows(inForce: Option<seq<string>>, o: seq<string>) {
    inForce.None? || inForce.value == o
  }

  predicate Narrows(before: Option<seq<string>>, after: Option<seq<string>>) {
    before == after || before.None?
  }

  ghost predicate Fits(st: Store, inForce: Option<seq<string>>, v: string, e: Entry) {
    forall o :: Allows(inForce, o) ==> Reads(st, o, v, e)
  }

  // ----- cached entries -----

  // The attribute `removes` of a parsed value: the texts that took effect in it, and the texts that were
  // added to the set later by the variables that it is the variant of, through their references to it.
  datatype Carry = Carry(own: set<string>, lent: map<string, set<string>>)

  // A parsed value (`VariableParse`) as it is cached; without removes it has no attribute `removes`.
  datatype Parsed = Parsed(raw: Option<string>, value: Option<string>, refs: set<string>, removes: Option<Carry>)

  type Cache = map<string, Parsed>

  function Carried(p: Parsed): set<string> {
    if p.removes.None? then {}
    else p.removes.value.own + set k, r | k in p.removes.value.lent && r in p.removes.value.lent[k] :: r
  }

  // What was computed, without what was added later.
  function EntryOf(p: Parsed): Entry {
    Entry(p.raw, p.value, p.refs, if p.removes.None? then {} else p.removes.value.own)
  }

  function TextsFrom(lent: map<string, set<string>>, k: string): set<string> {
    if k in lent then lent[k] else {}
  }

  // `removes.add(r)` for the texts of `k`
  function Lend(p: Parsed, k: string, texts: set<string>): Parsed
    requires p.removes.Some?
  {
    var c := p.removes.value;
    p.(removes := Some(c.(lent := c.lent[k := TextsFrom(c.lent, k) + texts])))
  }

  // Can the parsed value of `n` have the attribute?
  predicate CanCarry(st: Store, n: string) {
    FlagsOf(st, n).removes != [] || RecordsOf(st, n) != []
  }

  // What was added to the value of `n` are active texts of variables whose variant it is.
  ghost predicate LentFits(st: Store, overrides: seq<string>, n: string, lent: map<string, set<string>>) {
    forall k :: k in lent ==>
      Chosen(RecordsOf(st, k), overrides) == Some(n) && lent[k] <= ActiveTexts(FlagsOf(st, k).removes, overrides)
  }

  ghost predicate CarryFits(st: Store, inForce: Option<seq<string>>, n: string, p: Parsed) {
    p.removes.Some? ==>
      && CanCarry(st, n)
      && if inForce.None? then p.removes.value.lent == map[] else LentFits(st, inForce.value, n, p.removes.value.lent)
  }

  ghost predicate CacheFits(st: Store, inForce: Option<seq<string>>, cache: Cache) {
    forall v :: v in cache ==> Fits(st, inForce, v, EntryOf(cache[v])) && CarryFits(st, inForce, v, cache[v])
  }

  // The condition under which the additions do no harm: no variant that can carry removes is recorded
  // under two names with different `:remove` operations.
  ghost predicate RemovesAgree(st: Store) {
    forall k, l :: k in st.recorded && l in st.recorded && SharesVariant(st, k, l) ==>
      FlagsOf(st, k).removes == FlagsOf(st, l).removes
  }

  ghost predicate SharesVariant(st: Store, k: string, l: string)
    requires k in st.recorded && l in st.recorded
  {
    exists r, q :: r in st.recorded[k] && q in st.recorded[l] && r.name == q.name && CanCarry(st, r.name)
  }

  // Cache entries are right, and stay right when values of them are lent.
  ghost predicate Right(st: Store, inForce: Option<seq<string>>, cache: Cache) {
    RemovesAgree(st) && CacheFits(st, inForce, cache)
  }

  // With the condition, the removes that `v` applies are the same with the additions and without.
  lemma {:induction false} LoansDoNoHarm(st: Store, overrides: seq<string>, v: string, n: string, p: Parsed)
    requires RemovesAgree(st) && CarryFits(st, Some(overrides), n, p) && Chosen(RecordsOf(st, v), overrides) == Some(n)
    ensures Carried(p) + ActiveTexts(FlagsOf(st, v).removes, overrides) == EntryOf(p).removes
      + ActiveTexts(FlagsOf(st, v).removes, overrides)
  {
    if p.removes.Some? {
      var lent := p.removes.value.lent;
      forall k | k in lent ensures lent[k] <= ActiveTexts(FlagsOf(st, v).removes, overrides) {
        ChosenIsRecorded(RecordsOf(st, k), overrides);
        ChosenIsRecorded(RecordsOf(st, v), overrides);
        var r :| r in RecordsOf(st, k) && r.name == n;
        var q :| q in RecordsOf(st, v) && q.name == n;
        assert SharesVariant(st, k, v);
      }
    }
  }

  // One addition by itself: a variable with the active texts `own` still finds the removes that it would
  // find from scratch if and only if it, or the value itself, has the added texts already.
  lemma {:induction false} LoanIsHarmlessIff(p: Parsed, k: string, texts: set<string>, own: set<string>)
    requires p.removes.Some? && Carried(p) + own == EntryOf(p).removes + own
    ensures Carried(Lend(p, k, texts)) + own == EntryOf(p).removes + own <==> texts <= EntryOf(p).removes + own
  {
    hide Carried;
    CarriedLent(p, k, texts);
    assert Carried(p) + texts + own == EntryOf(p).removes + own + texts;
  }

  // Once `v` has lent its active texts, later additions change nothing.
  lemma {:induction false} NothingToLend(st: Store, overrides: seq<string>, v: string, n: string, p: Parsed, q: Parsed)
    requires RemovesAgree(st) && CarryFits(st, Some(overrides), n, q) && Chosen(RecordsOf(st, v), overrides) == Some(n)
    requires p.removes.Some? && GrownEntry(p, q)
    requires ActiveTexts(FlagsOf(st, v).removes, overrides) <= TextsFrom(p.removes.value.lent, v)
    ensures Carried(q) == Carried(p)
  {
    LoansDoNoHarm(st, overrides, v, n, q);
    assert EntryOf(q).removes == EntryOf(p).removes <= Carried(p);
    assert ActiveTexts(FlagsOf(st, v).removes, overrides) <= Carried(p);
    assert Carried(p) <= Carried(q);
  }

  // A write into the attribute of a cached value keeps the cache right.
  lemma {:induction false} LendFits(st: Store, overrides: seq<string>, cache: Cache, n: string, k: string,
                                    texts: set<string>)
    requires CacheFits(st, Some(overrides), cache) && n in cache && cache[n].removes.Some?
    requires Chosen(RecordsOf(st, k), overrides) == Some(n) && texts <= ActiveTexts(FlagsOf(st, k).removes, overrides)
    ensures CacheFits(st, Some(overrides), cache[n := Lend(cache[n], k, texts)])
  {
    var p := cache[n];
    assert Fits(st, Some(overrides), n, EntryOf(p)) && CarryFits(st, Some(overrides), n, p);
    assert EntryOf(Lend(p, k, texts)) == EntryOf(p);
  }

  // Later: nothing cached is lost, and values only get more removes.
  ghost predicate Grows(was: Cache, now: Cache) {
    forall v :: v in was ==> v in now && GrownEntry(was[v], now[v])
  }

  ghost predicate GrownEntry(p: Parsed, q: Parsed) {
    && EntryOf(q) == EntryOf(p) && (p.removes.Some? <==> q.removes.Some?)
    && (p.removes.Some? ==> forall k :: k in p.removes.value.lent ==>
          k in q.removes.value.lent && p.removes.value.lent[k] <= q.removes.value.lent[k])
  }

  lemma CarriedLent(p: Parsed, k: string, texts: set<string>)
    requires p.removes.Some?
    ensures Carried(Lend(p, k, texts)) == Carried(p) + texts
  {
    var q := Lend(p, k, texts);
    forall r ensures r in Carried(q) <==> r in Carried(p) + texts {
      if r in Carried(p) && r !in p.removes.value.own {
        var l :| l in p.removes.value.lent && r in p.removes.value.lent[l];
        assert l in q.removes.value.lent && r in q.removes.value.lent[l];
      }
      if r in texts {
        assert k in q.removes.value.lent && r in q.removes.value.lent[k];
      }
    }
  }

  lemma {:induction false} LendGrows(cache: Cache, n: string, k: string, texts: set<string>)
    requires n in cache && cache[n].removes.Some?
    ensures Grows(cache, cache[n := Lend(cache[n], k, texts)])
  {}

  lemma GrowsByNothing(cache: Cache)
    ensures Grows(cache, cache)
  {}

  // A new entry.
  lemma {:induction false} PutGrows(was: Cache, cache: Cache, v: string, p: Parsed)
    requires Grows(was, cache) && v !in was
    ensures Grows(was, cache[v := p])
  {}

  lemma {:induction false} PutFits(st: Store, inForce: Option<seq<string>>, cache: Cache, v: string, p: Parsed)
    requires CacheFits(st, inForce, cache) && Fits(st, inForce, v, EntryOf(p)) && CarryFits(st, inForce, v, p)
    ensures CacheFits(st, inForce, cache[v := p])
  {}

  lemma {:induction false} GrowsOn(a: Cache, b: Cache, c: Cache)
    requires Grows(a, b) && Grows(b, c)
    ensures Grows(a, c)
  {
    forall v | v in a ensures v in c && GrownEntry(a[v], c[v]) {
      assert GrownEntry(a[v], b[v]) && GrownEntry(b[v], c[v]);
    }
  }

  // The names that the cache knows of: those with an entry, and those that lent to one.
  function Known(cache: Cache): set<string> {
    cache.Keys + set v, k | v in cache && cache[v].removes.Some? && k in cache[v].removes.value.lent :: k
  }

  lemma {:induction false} RoundRead(st: Store, k: nat, o: seq<string>, e: Entry, next: seq<string>)
    requires IsRound(st, k, o) && Fits(st, Some(o), "OVERRIDES", e) && next == SplitOverrides(e.value)
    ensures IsRound(st, k + 1, next)
    ensures 1 <= k <= 5 && next == o ==> Settles(st, o)
  {
    assert Allows(Some(o), o);
    NextRound(st, k, o, e);
    assert next == o ==> SettlesAt(st, o, k) || !(1 <= k <= 5);
  }

  ghost predicate SubFits(st: Store, inForce: Option<seq<string>>, name: string, s: string, t: string,
                          refs: set<string>) {
    forall o :: Allows(inForce, o) ==> SubsTo(st, o, name, s, t, refs)
  }

  ghost predicate ExpandFits(st: Store, inForce: Option<seq<string>>, name: string, s: string, t: string,
                             refs: set<string>) {
    forall o :: Allows(inForce, o) ==> ExpandsTo(st, o, name, s, t, refs)
  }

  lemma {:induction false} SubFitsChar(st: Store, inForce: Option<seq<string>>, name: string, s: string, t: string,
                                       refs: set<string>)
    requires s != "" && RefAt(s).None? && SubFits(st, inForce, name, s[1..], t, refs)
    ensures SubFits(st, inForce, name, s, s[..1] + t, refs)
  {
    forall o | Allows(inForce, o) ensures SubsTo(st, o, name, s, s[..1] + t, refs) {
      SubChar(st, o, name, s, t, refs);
    }
  }

  lemma {:induction false} SubFitsRef(st: Store, before: Option<seq<string>>, after: Option<seq<string>>, name: string,
                                      s: string, key: string, e: Entry, t: string, refs: set<string>)
    requires Narrows(before, after)
    requires RefAt(s) == Some(key) && key != name && Fits(st, before, key, e)
    requires SubFits(st, after, name, s[|key| + 3..], t, refs)
    ensures SubFits(st, after, name, s, Substituted(s, key, e) + t, {key} + refs)
  {
    forall o | Allows(after, o) ensures SubsTo(st, o, name, s, Substituted(s, key, e) + t, {key} + refs) {
      SubRef(st, o, name, s, key, e, t, refs);
    }
  }

  lemma {:induction false} EntryFits(st: Store, inForce: Option<seq<string>>, v: string, variant: Entry,
                                     raw: Option<string>, value: Option<string>, refs: set<string>,
                                     words: map<string, set<string>>)
    requires forall o :: Allows(inForce, o) ==> VariantIs(st, o, v, variant)
    requires forall o :: Allows(inForce, o) ==> RawFrom(FlagsOf(st, v), variant.raw, o) == raw
    requires forall o :: Allows(inForce, o) ==> OptionExpandsTo(st, o, v, raw, value, refs)
    requires OrEmpty(value) != "" ==>
      forall o :: Allows(inForce, o) ==> WordsAre(st, o, variant.removes + ActiveTexts(FlagsOf(st, v).removes, o),
        words)
    ensures Fits(st, inForce, v, Assemble(raw, value, refs, words))
  {
    forall o | Allows(inForce, o) ensures Reads(st, o, v, Assemble(raw, value, refs, words)) {
      ReadAll(st, o, v, variant, value, refs, words);
    }
  }

  ghost predicate WordsFit(st: Store, inForce: Option<seq<string>>, words: map<string, set<string>>) {
    forall o, t :: Allows(inForce, o) && t in words ==> WordsOf(st, o, t, words[t])
  }

  lemma NoWordsFit(st: Store, inForce: Option<seq<string>>)
    ensures WordsFit(st, inForce, map[])
  {}

  lemma {:induction false} OneMoreWord(st: Store, before: Option<seq<string>>, after: Option<seq<string>>,
                                       words: map<string, set<string>>, t: string, u: string, refs: set<string>)
    requires Narrows(before, after) && WordsFit(st, before, words) && ExpandFits(st, after, "", t, u, refs)
    ensures WordsFit(st, after, words[t := FieldSet(u)])
  {
    var more := words[t := FieldSet(u)];
    forall o, r | Allows(after, o) && r in more ensures WordsOf(st, o, r, more[r]) {
      if r == t {
        assert WordsOf(st, o, r, FieldSet(u));
      } else {
        assert Allows(before, o) && WordsOf(st, o, r, words[r]);
      }
    }
  }

  lemma {:induction false} AllWords(st: Store, inForce: Option<seq<string>>, words: map<string, set<string>>)
    requires WordsFit(st, inForce, words)
    ensures forall o :: Allows(inForce, o) ==> WordsAre(st, o, words.Keys, words)
  {
    forall o | Allows(inForce, o) ensures WordsAre(st, o, words.Keys, words) {
      WordsTogether(st, o, words);
    }
  }

  // What `cur` expands to, `s` expands to.
  ghost predicate GoesOn(st: Store, inForce: Option<seq<string>>, name: string, s: string, cur: string,
                         refs: set<string>) {
    forall o, u, more :: Allows(inForce, o) && ExpandsTo(st, o, name, cur, u, more) ==>
      ExpandsTo(st, o, name, s, u, refs + more)
  }

  lemma {:induction false} GoesOnFromStart(st: Store, inForce: Option<seq<string>>, name: string, s: string)
    ensures GoesOn(st, inForce, name, s, s, {})
  {
    assert forall more: set<string> :: {} + more == more;
  }

  lemma {:induction false} GoesOnOnce(st: Store, before: Option<seq<string>>, after: Option<seq<string>>, name: string,
                                      s: string, cur: string, refs: set<string>, t: string, fresher: set<string>)
    requires Narrows(before, after) && GoesOn(st, before, name, s, cur, refs)
    requires HasRef(cur) && t != cur && SubFits(st, after, name, cur, t, fresher)
    ensures GoesOn(st, after, name, s, t, refs + fresher)
  {
    forall o, u, more | Allows(after, o) && ExpandsTo(st, o, name, t, u, more)
      ensures ExpandsTo(st, o, name, s, u, refs + fresher + more)
    {
      ExpandOnce(st, o, name, cur, t, fresher, u, more);
      assert refs + (fresher + more) == refs + fresher + more;
    }
  }

  lemma {:induction false} GoesOnToStable(st: Store, before: Option<seq<string>>, after: Option<seq<string>>,
                                          name: string, s: string, cur: string, refs: set<string>, fresher: set<string>)
    requires Narrows(before, after) && GoesOn(st, before, name, s, cur, refs)
    requires HasRef(cur) && SubFits(st, after, name, cur, cur, fresher)
    ensures ExpandFits(st, after, name, s, cur, refs + fresher)
  {
    forall o | Allows(after, o) ensures ExpandsTo(st, o, name, s, cur, refs + fresher) {
      ExpandStable(st, o, name, cur, fresher);
    }
  }

  lemma {:induction false} GoesOnToPlain(st: Store, inForce: Option<seq<string>>, name: string, s: string, cur: string,
                                         refs: set<string>)
    requires GoesOn(st, inForce, name, s, cur, refs) && !HasRef(cur)
    ensures ExpandFits(st, inForce, name, s, cur, refs)
  {
    assert refs + {} == refs;
    forall o | Allows(inForce, o) ensures ExpandsTo(st, o, name, s, cur, refs) {
      ExpandPlain(st, o, name, cur);
    }
  }

  // With the cache right and overrides in force, a read finds every result that its depth allows for.
  ghost predicate Capable(ok: bool, inForce: Option<seq<string>>) {
    ok && inForce.Some?
  }

  ghost predicate CanRead(st: Store, ok: bool, inForce: Option<seq<string>>, depth: nat, v: string) {
    Capable(ok, inForce) && Thorough(st, inForce.value, depth, v)
  }

  ghost predicate CanFindVariant(st: Store, ok: bool, inForce: Option<seq<string>>, depth: nat, v: string) {
    Capable(ok, inForce) && var chosen := Chosen(RecordsOf(st, v), inForce.value);
    chosen.Some? ==> Thorough(st, inForce.value, depth, chosen.value)
  }

  ghost predicate CanCompute(st: Store, ok: bool, inForce: Option<seq<string>>, depth: nat, v: string, variant: Entry) {
    Capable(ok, inForce) && ThoroughFrom(st, inForce.value, depth, v, variant)
  }

  ghost predicate CanExpandAll(st: Store, ok: bool, inForce: Option<seq<string>>, depth: nat, texts: set<string>) {
    Capable(ok, inForce) && ThoroughTexts(st, inForce.value, depth, texts)
  }

  ghost predicate CanExpandOption(st: Store, ok: bool, inForce: Option<seq<string>>, depth: nat, name: string,
                                  s: Option<string>) {
    Capable(ok, inForce) && (s.Some? ==> ThoroughText(st, inForce.value, depth, name, s.value))
  }

  ghost predicate CanExpand(st: Store, ok: bool, inForce: Option<seq<string>>, depth: nat, name: string, s: string) {
    Capable(ok, inForce) && ThoroughText(st, inForce.value, depth, name, s)
  }

  ghost predicate CanSub(st: Store, ok: bool, inForce: Option<seq<string>>, depth: nat, name: string, s: string) {
    Capable(ok, inForce) && ThoroughSub(st, inForce.value, depth, name, s)
  }

  lemma {:induction false} CanReadParts(st: Store, ok: bool, inForce: Option<seq<string>>, depth: nat, v: string)
    requires CanRead(st, ok, inForce, depth, v)
    ensures depth > 0 && CanFindVariant(st, ok, inForce, depth - 1, v)
    ensures forall variant :: VariantIs(st, inForce.value, v, variant) ==>
      CanCompute(st, ok, inForce, depth - 1, v, variant)
  {
    forall variant | VariantIs(st, inForce.value, v, variant)
      ensures CanCompute(st, ok, inForce, depth - 1, v, variant) {
      VariantIsFound(st, inForce.value, depth - 1, v, variant);
    }
  }

  lemma {:induction false} VariantIsFound(st: Store, overrides: seq<string>, n: nat, v: string, variant: Entry)
    requires VariantIs(st, overrides, v, variant)
      && EvalVariant(st, overrides, n, Chosen(RecordsOf(st, v), overrides)).Ok?
    ensures EvalVariant(st, overrides, n, Chosen(RecordsOf(st, v), overrides)) == Ok(variant)
  {
    var chosen := Chosen(RecordsOf(st, v), overrides);
    if chosen.Some? {
      assert Reads(st, overrides, chosen.value, Eval(st, overrides, n, chosen.value).value);
      ReadsIsFunctional(st, overrides, chosen.value, variant, Eval(st, overrides, n, chosen.value).value);
    }
  }

  lemma {:induction false} CanComputeParts(st: Store, ok: bool, inForce: Option<seq<string>>, depth: nat, v: string,
                                           variant: Entry)
    requires CanCompute(st, ok, inForce, depth, v, variant)
    ensures var raw := RawFrom(FlagsOf(st, v), variant.raw, inForce.value);
      && CanExpandOption(st, ok, inForce, depth, v, raw)
      && (OrEmpty(raw) != "" ==>
            CanExpandAll(st, ok, inForce, depth, variant.removes + ActiveTexts(FlagsOf(st, v).removes, inForce.value)))
  {
    assert !HasRef("");
  }

  // One round of the expansion loop with `rounds` of fuel left.
  lemma {:induction false} CanExpandOnce(st: Store, ok: bool, inForce: Option<seq<string>>, rounds: nat, depth: nat,
                                         name: string, cur: string)
    requires HasRef(cur) && rounds <= depth && CanExpand(st, ok, inForce, rounds, name, cur)
    ensures rounds > 0 && CanSub(st, ok, inForce, depth, name, cur)
    ensures forall t, refs :: SubFits(st, inForce, name, cur, t, refs) && t != cur ==>
      CanExpand(st, ok, inForce, rounds - 1, name, t)
  {
    var o := inForce.value;
    ThoroughSubMono(st, o, rounds - 1, depth, name, cur);
    forall t, refs | SubFits(st, inForce, name, cur, t, refs) && t != cur
      ensures CanExpand(st, ok, inForce, rounds - 1, name, t) {
      assert Allows(inForce, o);
      SubsToIsFunctional(st, o, rounds - 1, name, cur, t, refs);
    }
  }

  lemma CanExpandOne(st: Store, ok: bool, inForce: Option<seq<string>>, depth: nat, texts: set<string>, r: string)
    requires CanExpandAll(st, ok, inForce, depth, texts) && r in texts
    ensures CanExpand(st, ok, inForce, depth, "", r)
  {}

  lemma {:induction false} CanSubParts(st: Store, ok: bool, inForce: Option<seq<string>>, depth: nat, name: string,
                                       s: string)
    requires s != "" && CanSub(st, ok, inForce, depth, name, s)
    ensures RefAt(s).None? ==> CanSub(st, ok, inForce, depth, name, s[1..])
    ensures RefAt(s).Some? ==> var key := RefAt(s).value;
      key != name && CanRead(st, ok, inForce, depth, key) && CanSub(st, ok, inForce, depth, name, s[|key| + 3..])
  {}

  // Without references to look up, a read goes through in any case.
  predicate PlainOption(s: Option<string>) {
    s.Some? ==> !HasRef(s.value)
  }

  predicate PlainTexts(texts: set<string>) {
    forall r :: r in texts ==> !HasRef(r)
  }

  // The variant of `v`, if there is one, is in the cache.
  ghost predicate VariantAtHand(st: Store, inForce: Option<seq<string>>, cache: Cache, v: string) {
    inForce.Some? && var chosen := Chosen(RecordsOf(st, v), inForce.value);
    chosen.Some? ==> chosen.value in cache
  }

  ghost predicate PlainStep(st: Store, inForce: Option<seq<string>>, cache: Cache, v: string) {
    && VariantAtHand(st, inForce, cache, v)
    && var (chosen, f) := (Chosen(RecordsOf(st, v), inForce.value), FlagsOf(st, v));
       var (start, texts) :=
         if chosen.Some? then (cache[chosen.value].raw, Carried(cache[chosen.value])) else (None, {});
       PlainOption(RawFrom(f, start, inForce.value)) && PlainTexts(texts + ActiveTexts(f.removes, inForce.value))
  }

  // The cache with the texts of `v` added to what its variant hands on.
  function SharedCache(cache: Cache, lender: Option<string>, v: string, texts: set<string>): Cache {
    if lender.Some? && lender.value in cache && cache[lender.value].removes.Some?
    then cache[lender.value := Lend(cache[lender.value], v, texts)]
    else cache
  }

  // All that a read without references changes in the cache, besides its own entry.
  ghost predicate PlainEffect(st: Store, inForce: Option<seq<string>>, was: Cache, now: Cache, v: string)
    requires PlainStep(st, inForce, was, v)
  {
    var (chosen, f) := (Chosen(RecordsOf(st, v), inForce.value), FlagsOf(st, v));
    var raw := RawFrom(f, if chosen.Some? then was[chosen.value].raw else None, inForce.value);
    now == if OrEmpty(raw) != "" then SharedCache(was, chosen, v, ActiveTexts(f.removes, inForce.value)) else was
  }

  // ----- what a read computes -----

  // Text without references is its own expansion, whatever is in the cache.
  ghost predicate PlainStays(s: Option<string>, t: Option<string>, refs: set<string>) {
    (s.None? <==> t.None?) && (PlainOption(s) ==> t == s && refs == {})
  }

  ghost predicate PlainWordsStay(texts: set<string>, words: map<string, set<string>>) {
    words.Keys == texts && forall r :: r in texts && !HasRef(r) ==> words[r] == FieldSet(r)
  }

  // The program's own view of a read under `o`, right or wrong: the value is put together from what the
  // cache holds for the chosen variant, with all the removes that this entry carries by then.
  ghost predicate ReadsThrough(st: Store, o: seq<string>, v: string, p: Parsed, cache: Cache) {
    var (f, chosen) := (FlagsOf(st, v), Chosen(RecordsOf(st, v), o));
    && (chosen.Some? ==> chosen.value in cache)
    && var start := if chosen.Some? then Some(cache[chosen.value]) else None;
      var texts := (if start.Some? then Carried(start.value) else {}) + ActiveTexts(f.removes, o);
      PutTogether(p, RawFrom(f, if start.Some? then start.value.raw else None, o), texts)
      && (start.Some? && start.value.removes.Some? && OrEmpty(p.raw) != "" && !HasRef(p.raw.value) ==>
            ActiveTexts(f.removes, o) <= TextsFrom(start.value.removes.value.lent, v))
  }

  ghost predicate PutTogether(p: Parsed, raw: Option<string>, texts: set<string>) {
    exists value, refs, words :: IsPutTogether(p, raw, texts, value, refs, words)
  }

  ghost predicate IsPutTogether(p: Parsed, raw: Option<string>, texts: set<string>, value: Option<string>,
                                refs: set<string>, words: map<string, set<string>>) {
    && PlainStays(raw, value, refs) && (OrEmpty(value) != "" ==> PlainWordsStay(texts, words))
    && EntryOf(p) == Assemble(raw, value, refs, words)
    && (OrEmpty(value) != "" && texts != {} ==> p.removes.Some?)
    && (p.removes.Some? ==> texts != {} && p.removes.value.lent == map[])
  }

  lemma {:induction false} ReadPutTogether(st: Store, o: seq<string>, v: string, variant: Entry,
                                           lender: Option<string>, cache: Cache,
                                           value: Option<string>, refs: set<string>, words: map<string, set<string>>,
                                             p: Parsed)
    requires VariantFrom(st, Some(o), cache, v, variant, lender)
    requires var raw := RawFrom(FlagsOf(st, v), variant.raw, o);
      IsPutTogether(p, raw, RemovesOf(lender, cache) + ActiveTexts(FlagsOf(st, v).removes, o), value, refs, words)
    requires OrEmpty(value) != "" && lender.Some? ==> HasLent(st, o, v, lender.value, cache)
    ensures ReadsThrough(st, o, v, p, cache)
  {
    var chosen := Chosen(RecordsOf(st, v), o);
    var texts := (if chosen.Some? then Carried(cache[chosen.value]) else {}) + ActiveTexts(FlagsOf(st, v).removes, o);
    assert texts == RemovesOf(lender, cache) + ActiveTexts(FlagsOf(st, v).removes, o);
    assert PutTogether(p, RawFrom(FlagsOf(st, v), variant.raw, o), texts);
  }

  // The entry that the variant of `v` was read from, and whether it can be added to.
  ghost predicate VariantFrom(st: Store, inForce: Option<seq<string>>, cache: Cache, v: string, variant: Entry,
                              lender: Option<string>) {
    if inForce.None? then RecordsOf(st, v) == [] && variant == NOTHING && lender == None
    else
      var chosen := Chosen(RecordsOf(st, v), inForce.value);
      if chosen.None? then variant == NOTHING && lender == None
      else
        && chosen.value in cache && EntryOf(cache[chosen.value]) == variant
        && lender == if cache[chosen.value].removes.Some? then chosen else None
  }

  lemma {:induction false} PlainStepParts(st: Store, inForce: Option<seq<string>>, cache: Cache, v: string,
                                          variant: Entry, lender: Option<string>)
    requires PlainStep(st, inForce, cache, v) && VariantFrom(st, inForce, cache, v, variant, lender)
    ensures PlainOption(RawFrom(FlagsOf(st, v), variant.raw, inForce.value))
    ensures PlainTexts(RemovesOf(lender, cache) + ActiveTexts(FlagsOf(st, v).removes, inForce.value))
    ensures var (raw, texts) := (RawFrom(FlagsOf(st, v), variant.raw, inForce.value),
      ActiveTexts(FlagsOf(st, v).removes, inForce.value));
      PlainEffect(st, inForce, cache, if OrEmpty(raw) == "" then cache else SharedCache(cache, lender, v, texts), v)
  {}

  lemma PlainAtHand(st: Store, inForce: Option<seq<string>>, cache: Cache, v: string)
    requires PlainStep(st, inForce, cache, v)
    ensures VariantAtHand(st, inForce, cache, v)
  {}

  lemma {:induction false} VariantStays(st: Store, before: Option<seq<string>>, was: Cache, after: Option<seq<string>>,
                                        now: Cache, v: string, variant: Entry, lender: Option<string>)
    requires VariantFrom(st, before, was, v, variant, lender) && Narrows(before, after)
      && (before.Some? ==> Grows(was, now))
    ensures VariantFrom(st, after, now, v, variant, lender)
  {
    if before.None? && after.Some? {
      NothingToChoose(after.value);
    }
  }

  // The texts to remove that come from the variant.
  function RemovesOf(lender: Option<string>, cache: Cache): set<string> {
    if lender.Some? && lender.value in cache then Carried(cache[lender.value]) else {}
  }

  // `v` has added its active texts to what it got from the variant.
  ghost predicate HasLent(st: Store, o: seq<string>, v: string, n: string, cache: Cache) {
    && n in cache && cache[n].removes.Some?
    && ActiveTexts(FlagsOf(st, v).removes, o) <= TextsFrom(cache[n].removes.value.lent, v)
  }

  lemma {:induction false} HasLentStill(st: Store, o: seq<string>, v: string, n: string, was: Cache, now: Cache)
    requires HasLent(st, o, v, n, was) && Grows(was, now)
    ensures HasLent(st, o, v, n, now)
  {
    assert GrownEntry(was[n], now[n]);
  }

  lemma {:induction false} LoanStays(st: Store, o: seq<string>, v: string, n: string, was: Cache, now: Cache, ok: bool)
    requires HasLent(st, o, v, n, was) && Grows(was, now) && Chosen(RecordsOf(st, v), o) == Some(n)
    requires ok ==> Right(st, Some(o), now)
    ensures n in now && HasLent(st, o, v, n, now)
    ensures ok ==> Carried(now[n]) == Carried(was[n])
  {
    HasLentStill(st, o, v, n, was, now);
    if ok {
      NothingToLend(st, o, v, n, was[n], now[n]);
    }
  }

  lemma LenderIsChosen(st: Store, inForce: Option<seq<string>>, cache: Cache, v: string, variant: Entry,
                       lender: Option<string>)
    requires VariantFrom(st, inForce, cache, v, variant, lender)
    ensures lender.Some? ==>
      && inForce.Some? && Chosen(RecordsOf(st, v), inForce.value) == lender
      && lender.value in cache && cache[lender.value].removes.Some?
    ensures inForce.None? ==> variant.removes == {}
    ensures lender.None? ==> variant.removes == {}
  {}

  // What `v` removes, once its own active texts `own` are in the set of its variant.
  lemma {:induction false} RemovesTogether(st: Store, inForce: Option<seq<string>>, cache: Cache, v: string,
                                           variant: Entry, lender: Option<string>,
                                           own: set<string>, removes: set<string>, ok: bool)
    requires VariantFrom(st, inForce, cache, v, variant, lender)
    requires forall o :: Allows(inForce, o) ==> ActiveTexts(FlagsOf(st, v).removes, o) == own
    requires removes == if lender.Some? then Carried(cache[lender.value]) else own
    requires lender.Some? ==> own <= Carried(cache[lender.value])
    requires ok ==> Right(st, inForce, cache)
    ensures forall o :: Allows(inForce, o) ==>
      RemovesOf(lender, cache) + ActiveTexts(FlagsOf(st, v).removes, o) == removes
    ensures ok ==> forall o :: Allows(inForce, o) ==>
      variant.removes + ActiveTexts(FlagsOf(st, v).removes, o) == removes
    ensures removes != {} ==> CanCarry(st, v)
  {
    hide Chosen, Carried, RemovesAgree, CacheFits, ActiveTexts;
    if lender.Some? {
      assert RemovesOf(lender, cache) + own == removes;
      if ok { RemovesAreRight(st, inForce.value, cache, v, variant, lender); }
      ChosenIsRecorded(RecordsOf(st, v), inForce.value);
    } else {
      assert variant.removes == {} && RemovesOf(lender, cache) == {};
      OwnRemovesCarry(st, inForce, v, own);
    }
  }

  lemma OwnRemovesCarry(st: Store, inForce: Option<seq<string>>, v: string, own: set<string>)
    requires forall o :: Allows(inForce, o) ==> ActiveTexts(FlagsOf(st, v).removes, o) == own
    ensures own != {} ==> FlagsOf(st, v).removes != []
  {
    var o := if inForce.Some? then inForce.value else [];
    assert Allows(inForce, o);
  }

  // With the cache right, the removes that come from the variant are those of its read, up to the own ones.
  lemma {:induction false} RemovesAreRight(st: Store, o: seq<string>, cache: Cache, v: string, variant: Entry,
                                           lender: Option<string>)
    requires Right(st, Some(o), cache) && VariantFrom(st, Some(o), cache, v, variant, lender)
    ensures RemovesOf(lender, cache) + ActiveTexts(FlagsOf(st, v).removes, o) == variant.removes
      + ActiveTexts(FlagsOf(st, v).removes, o)
  {
    if lender.Some? {
      LoansDoNoHarm(st, o, v, lender.value, cache[lender.value]);
    }
  }

  lemma {:induction false} ComputedThrough(st: Store, o: seq<string>, v: string, variant: Entry,
                                           lender: Option<string>, cache: Cache, raw: Option<string>,
                                           value: Option<string>, refs: set<string>, words: map<string, set<string>>,
                                             present: bool, p: Parsed)
    requires RawFrom(FlagsOf(st, v), variant.raw, o) == raw && PlainStays(raw, value, refs)
      && (OrEmpty(value) != "" ==> present)
    requires present ==> PlainWordsStay(RemovesOf(lender, cache) + ActiveTexts(FlagsOf(st, v).removes, o), words)
    requires present && lender.Some? ==> HasLent(st, o, v, lender.value, cache)
    requires VariantFrom(st, Some(o), cache, v, variant, lender)
    requires EntryOf(p) == Assemble(raw, value, refs, words) && (p.removes.Some? <==> present && words != map[])
    requires p.removes.Some? ==> p.removes.value.lent == map[]
    ensures ReadsThrough(st, o, v, p, cache)
  {
    var texts := RemovesOf(lender, cache) + ActiveTexts(FlagsOf(st, v).removes, o);
    assert IsPutTogether(p, raw, texts, value, refs, words);
    ReadPutTogether(st, o, v, variant, lender, cache, value, refs, words, p);
  }

  lemma NoPlainWords()
    ensures PlainWordsStay({}, map[])
  {}

  lemma {:induction false} OneMorePlainWord(texts: set<string>, words: map<string, set<string>>, r: string, t: string)
    requires PlainWordsStay(texts, words) && (!HasRef(r) ==> t == r)
    ensures PlainWordsStay(texts + {r}, words[r := FieldSet(t)])
  {}

  lemma PlainKeys(texts: set<string>, words: map<string, set<string>>)
    requires PlainWordsStay(texts, words)
    ensures words.Keys == texts
  {}

  // A cached entry that is right.
  lemma CachedFits(st: Store, inForce: Option<seq<string>>, cache: Cache, v: string)
    requires CacheFits(st, inForce, cache) && v in cache
    ensures Fits(st, inForce, v, EntryOf(cache[v])) && CarryFits(st, inForce, v, cache[v])
  {}

  // ----- what a read adds to the cache -----
  //
  // The names known after a read are those known before and those that it touches, whatever depth the
  // touching is measured with.

  ghost predicate Sees(st: Store, o: seq<string>, was: set<string>, now: set<string>, v: string) {
    forall n: nat :: Thorough(st, o, n, v) ==> now <= was + EvalTouches(st, o, n, v)
  }

  ghost predicate SeesVariant(st: Store, o: seq<string>, was: set<string>, now: set<string>, v: string) {
    var chosen := Chosen(RecordsOf(st, v), o);
    if chosen.None? then now <= was else Sees(st, o, was, now, chosen.value)
  }

  ghost predicate SeesFrom(st: Store, o: seq<string>, was: set<string>, now: set<string>, v: string, variant: Entry) {
    forall n: nat :: ThoroughFrom(st, o, n, v, variant) ==> now <= was + {v} + FromTouches(st, o, n, v, variant)
  }

  ghost predicate SeesTexts(st: Store, o: seq<string>, was: set<string>, now: set<string>, texts: set<string>) {
    forall n: nat :: ThoroughTexts(st, o, n, texts) ==> now <= was + RemovesTouch(st, o, n, texts)
  }

  ghost predicate SeesText(st: Store, o: seq<string>, was: set<string>, now: set<string>, name: string, s: string) {
    forall n: nat :: ThoroughText(st, o, n, name, s) ==> now <= was + ExpandTouches(st, o, n, name, s)
  }

  ghost predicate SeesSub(st: Store, o: seq<string>, was: set<string>, now: set<string>, name: string, s: string) {
    forall n: nat :: ThoroughSub(st, o, n, name, s) ==> now <= was + SubTouches(st, o, n, name, s)
  }

  lemma {:induction false} SeesEntry(st: Store, o: seq<string>, was: set<string>, cache: Cache, v: string, p: Parsed)
    requires Sees(st, o, was, Known(cache), v) && (p.removes.Some? ==> p.removes.value.lent == map[])
    ensures Sees(st, o, was, Known(cache[v := p]), v)
  {
    assert Known(cache[v := p]) <= Known(cache) + {v};
    forall n: nat | Thorough(st, o, n, v) ensures Known(cache[v := p]) <= was + EvalTouches(st, o, n, v) {
      assert v in EvalTouches(st, o, n, v);
    }
  }

  lemma {:induction false} EntryThrough(st: Store, o: seq<string>, v: string, p: Parsed, cache: Cache)
    requires ReadsThrough(st, o, v, p, cache) && Chosen(RecordsOf(st, v), o) != Some(v)
    ensures ReadsThrough(st, o, v, p, cache[v := p])
  {}

  ghost predicate SeesOption(st: Store, o: seq<string>, was: set<string>, now: set<string>, name: string,
                             s: Option<string>) {
    if s.Some? then SeesText(st, o, was, now, name, s.value) else now <= was
  }

  lemma {:induction false} SeesBoth(st: Store, o: seq<string>, was: set<string>, mid: set<string>, now: set<string>,
                                    v: string, variant: Entry)
    requires VariantIs(st, o, v, variant) && SeesVariant(st, o, was, mid, v) && SeesFrom(st, o, mid, now, v, variant)
    ensures Sees(st, o, was, now, v)
  {
    forall n: nat | Thorough(st, o, n, v) ensures now <= was + EvalTouches(st, o, n, v) {
      VariantIsFound(st, o, n - 1, v, variant);
      assert ThoroughFrom(st, o, n - 1, v, variant);
    }
  }

  lemma {:induction false} SeesValueAndTexts(st: Store, o: seq<string>, was: set<string>, mid: set<string>,
                                             now: set<string>, v: string, variant: Entry)
    requires var raw := RawFrom(FlagsOf(st, v), variant.raw, o);
      && SeesOption(st, o, was, mid, v, raw)
      && if OrEmpty(raw) == "" then now <= mid
         else SeesTexts(st, o, mid + {v}, now, variant.removes + ActiveTexts(FlagsOf(st, v).removes, o))
    ensures SeesFrom(st, o, was, now, v, variant)
  {
    var raw := RawFrom(FlagsOf(st, v), variant.raw, o);
    forall n: nat | ThoroughFrom(st, o, n, v, variant) ensures now <= was + {v} + FromTouches(st, o, n, v, variant) {
      if raw == Some("") {
        assert ThoroughText(st, o, n, v, "") && ExpandTouches(st, o, n, v, "") == {};
      }
    }
  }

  lemma {:induction false} ComputedSees(st: Store, o: seq<string>, was: set<string>, mid: set<string>,
                                        now: set<string>, v: string, variant: Entry, present: bool)
    requires var raw := RawFrom(FlagsOf(st, v), variant.raw, o);
      SeesOption(st, o, was, mid, v, raw) && (present ==> OrEmpty(raw) != "")
    requires if present
             then SeesTexts(st, o, mid + {v}, now, variant.removes + ActiveTexts(FlagsOf(st, v).removes, o))
             else now == mid
    ensures SeesFrom(st, o, was, now, v, variant)
  {
    var raw := RawFrom(FlagsOf(st, v), variant.raw, o);
    if !present {
      forall n: nat | ThoroughFrom(st, o, n, v, variant) ensures now <= was + {v} + FromTouches(st, o, n, v, variant) {
        if raw == Some("") {
          assert ThoroughText(st, o, n, v, "") && ExpandTouches(st, o, n, v, "") == {};
        }
      }
    } else {
      SeesValueAndTexts(st, o, was, mid, now, v, variant);
    }
  }

  lemma SeesNothingNew(st: Store, o: seq<string>, was: set<string>, v: string)
    ensures Sees(st, o, was, was, v)
  {}

  lemma {:induction false} SeesRest(st: Store, o: seq<string>, was: set<string>, mid: set<string>, now: set<string>,
                                    name: string, s: string, key: string)
    requires RefAt(s) == Some(key) && Sees(st, o, was, mid, key) && SeesSub(st, o, mid, now, name, s[|key| + 3..])
    ensures SeesSub(st, o, was, now, name, s)
  {
    forall n: nat | ThoroughSub(st, o, n, name, s) ensures now <= was + SubTouches(st, o, n, name, s) {
      assert s != "";
      assert Thorough(st, o, n, key) && ThoroughSub(st, o, n, name, s[|key| + 3..]);
    }
  }

  lemma {:induction false} SeesChar(st: Store, o: seq<string>, was: set<string>, now: set<string>, name: string,
                                    s: string)
    requires s != "" && RefAt(s).None? && SeesSub(st, o, was, now, name, s[1..])
    ensures SeesSub(st, o, was, now, name, s)
  {
    forall n: nat | ThoroughSub(st, o, n, name, s) ensures now <= was + SubTouches(st, o, n, name, s) {
      assert ThoroughSub(st, o, n, name, s[1..]);
    }
  }

  // In the expansion loop: what `cur` still touches is part of what `s` touches.
  ghost predicate SeesSoFar(st: Store, o: seq<string>, was: set<string>, now: set<string>, name: string, s: string,
                            cur: string) {
    forall n: nat :: ThoroughText(st, o, n, name, s) ==>
      now <= was + ExpandTouches(st, o, n, name, s) && TouchesLess(st, o, n, name, s, cur)
  }

  ghost predicate TouchesLess(st: Store, o: seq<string>, n: nat, name: string, s: string, cur: string) {
    exists m: nat :: ThoroughText(st, o, m, name, cur)
      && ExpandTouches(st, o, m, name, cur) <= ExpandTouches(st, o, n, name, s)
  }

  lemma {:induction false} SeesFromStart(st: Store, o: seq<string>, was: set<string>, name: string, s: string)
    ensures SeesSoFar(st, o, was, was, name, s, s)
  {
    forall n: nat | ThoroughText(st, o, n, name, s) ensures TouchesLess(st, o, n, name, s, s) {
      assert ExpandTouches(st, o, n, name, s) <= ExpandTouches(st, o, n, name, s);
    }
  }

  lemma {:induction false} SeesOnce(st: Store, o: seq<string>, was: set<string>, mid: set<string>, now: set<string>,
                                    name: string, s: string, cur: string, t: string, refs: set<string>)
    requires SeesSoFar(st, o, was, mid, name, s, cur) && HasRef(cur)
    requires SeesSub(st, o, mid, now, name, cur) && SubsTo(st, o, name, cur, t, refs)
    ensures if t == cur then SeesText(st, o, was, now, name, s) else SeesSoFar(st, o, was, now, name, s, t)
  {
    forall n: nat | ThoroughText(st, o, n, name, s)
      ensures now <= was + ExpandTouches(st, o, n, name, s) && (t != cur ==> TouchesLess(st, o, n, name, s, t))
    {
      var m: nat :| ThoroughText(st, o, m, name, cur)
        && ExpandTouches(st, o, m, name, cur) <= ExpandTouches(st, o, n, name, s);
      assert ThoroughSub(st, o, m - 1, name, cur);
      SubsToIsFunctional(st, o, m - 1, name, cur, t, refs);
      assert t != cur ==> ThoroughText(st, o, m - 1, name, t);
    }
  }

  lemma {:induction false} SeesNothing(st: Store, o: seq<string>, was: set<string>, name: string)
    ensures SeesSub(st, o, was, was, name, "")
  {}

  lemma {:induction false} SeesInLoop(st: Store, o: seq<string>, was: set<string>, mid: set<string>, now: set<string>,
                                      name: string, s: string, cur: string, t: string, refs: set<string>)
    requires SeesSoFar(st, o, was, mid, name, s, cur) && HasRef(cur)
    requires SeesSub(st, o, mid, now, name, cur) && SubFits(st, Some(o), name, cur, t, refs)
    ensures if t == cur then SeesText(st, o, was, now, name, s) else SeesSoFar(st, o, was, now, name, s, t)
  {
    assert Allows(Some(o), o);
    SeesOnce(st, o, was, mid, now, name, s, cur, t, refs);
  }

  lemma {:induction false} SeesToPlain(st: Store, o: seq<string>, was: set<string>, now: set<string>, name: string,
                                       s: string, cur: string)
    requires SeesSoFar(st, o, was, now, name, s, cur)
    ensures SeesText(st, o, was, now, name, s)
  {}

  lemma SeesNoTexts(st: Store, o: seq<string>, was: set<string>)
    ensures SeesTexts(st, o, was, was, {})
  {}

  lemma {:induction false} SeesTextsFromMore(st: Store, o: seq<string>, was: set<string>, more: set<string>,
                                             now: set<string>, texts: set<string>)
    requires SeesTexts(st, o, was, now, texts) && was <= more
    ensures SeesTexts(st, o, more, now, texts)
  {
    forall n: nat | ThoroughTexts(st, o, n, texts) ensures now <= more + RemovesTouch(st, o, n, texts) {
      assert now <= was + RemovesTouch(st, o, n, texts);
    }
  }

  // One more `:remove` text has been expanded.
  lemma {:induction false} SeesOneMore(st: Store, o: seq<string>, was: set<string>, mid: set<string>, now: set<string>,
                                       done: set<string>, r: string)
    requires SeesTexts(st, o, was, mid, done) && SeesText(st, o, mid, now, "", r)
    ensures SeesTexts(st, o, was, now, done + {r})
  {
    forall n: nat | ThoroughTexts(st, o, n, done + {r}) ensures now <= was + RemovesTouch(st, o, n, done + {r}) {
      assert ThoroughTexts(st, o, n, done) && ThoroughText(st, o, n, "", r);
      assert RemovesTouch(st, o, n, done) <= RemovesTouch(st, o, n, done + {r});
      assert ExpandTouches(st, o, n, "", r) <= RemovesTouch(st, o, n, done + {r});
    }
  }

  // The overrides in force, if any, are those that OVERRIDES settles on.
  ghost predicate Settled(st: Store, inForce: Option<seq<string>>) {
    inForce.Some? ==> Settles(st, inForce.value)
  }

  // The overrides have just settled, with nothing in the cache before, or the cache has been emptied since.
  ghost predicate SettledInto(st: Store, o: seq<string>, cache: Cache) {
    Settles(st, o) && CacheFits(st, Some(o), cache) && (cache == map[] || Sees(st, o, {}, Known(cache), "OVERRIDES"))
  }

  // The overrides `used` are in force, and settled into the cache if they were not in force before.
  ghost predicate SettledFirst(st: Store, before: Option<seq<string>>, used: seq<string>, cache: Cache) {
    && (before.Some? ==> before.value == used && cache == map[])
    && (before.None? ==> "OVERRIDES" in cache && (RemovesAgree(st) ==> SettledInto(st, used, cache)))
  }

  // ----- when the overrides do settle -----

  // Every round up to one that is stable can be read with this depth.
  ghost predicate CanSettle(st: Store, ok: bool, depth: nat) {
    ok && exists k: nat :: CanSettleAt(st, depth, k)
  }

  ghost predicate CanSettleAt(st: Store, depth: nat, k: nat) {
    1 <= k <= 5 && IsSameRound(st, depth, k) && forall i: nat :: i <= k ==> RoundIsThorough(st, depth, i)
  }

  ghost predicate IsSameRound(st: Store, depth: nat, k: nat) {
    Round(st, depth, k).Ok? && Round(st, depth, k + 1) == Round(st, depth, k)
  }

  ghost predicate RoundIsThorough(st: Store, depth: nat, i: nat) {
    forall o :: IsRound(st, i, o) ==> Thorough(st, o, depth, "OVERRIDES")
  }

  // Round `count + 1` is another than the round after it.
  ghost predicate NotYet(st: Store, count: nat) {
    exists o, p :: Moves(st, count, o, p)
  }

  ghost predicate Moves(st: Store, count: nat, o: seq<string>, p: seq<string>) {
    IsRound(st, count + 1, o) && IsRound(st, count + 2, p) && o != p
  }

  lemma {:induction false} StableByThen(st: Store, depth: nat, k: nat, count: nat)
    requires CanSettleAt(st, depth, k) && count < k && NotYet(st, count)
    ensures count + 1 < k
  {
    hide Round, RoundIsThorough;
    if count + 1 == k {
      var o, p :| Moves(st, count, o, p);
      assert IsRound(st, k, Round(st, depth, k).value) && IsRound(st, k + 1, Round(st, depth, k + 1).value);
      RoundIsFunctional(st, k, o, Round(st, depth, k).value);
      RoundIsFunctional(st, k + 1, p, Round(st, depth, k + 1).value);
    }
  }

  lemma {:induction false} NotYetStable(st: Store, count: nat, o: seq<string>, p: seq<string>)
    requires IsRound(st, count + 1, o) && IsRound(st, count + 2, p) && o != p
    ensures NotYet(st, count)
  {
    assert Moves(st, count, o, p);
  }

  // A right entry for `v` is the only one: whatever is cached, and whether or not the overrides
  // have settled already, every right read finds the same.
  lemma {:induction false} RightEntriesAgree(st: Store, here: Option<seq<string>>, there: Option<seq<string>>,
                                             v: string, e1: Entry, e2: Entry)
    requires Settled(st, here) && Settled(st, there)
    requires Fits(st, here, v, e1) && Fits(st, there, v, e2)
    ensures e1 == e2
  {
    if here.Some? && there.Some? {
      SettlesIsFunctional(st, here.value, there.value);
    }
    var o := if here.Some? then here.value else if there.Some? then there.value else [];
    assert Allows(here, o) && Allows(there, o);
    ReadsIsFunctional(st, o, v, e1, e2);
  }

  lemma {:induction false} SetKeepsSettled(st: Store, inForce: Option<seq<string>>, v: string, text: string,
                                           parsing: bool, used: seq<string>)
    requires inForce.Some? ==> SettlesWithout(st, inForce.value, SetTouches(st, v, parsing, inForce.value))
    requires inForce.Some? && ParseName(v).None? && !parsing && v in st.recorded ==> used == inForce.value
    ensures Settled(AfterSetVar(st, v, text, parsing, used), inForce)
  {
    if inForce.Some? {
      var o := inForce.value;
      assert AfterSetVar(st, v, text, parsing, used) == AfterSetVar(st, v, text, parsing, o);
      SetTouchesOnly(st, v, text, parsing, o);
      StillSettles(st, AfterSetVar(st, v, text, parsing, o), o, SetTouches(st, v, parsing, o));
    }
  }

  // Settling reads OVERRIDES thoroughly, and does not look at `touched`.
  ghost predicate SettlesThoroughly(st: Store, o: seq<string>, touched: set<string>) {
    exists n: nat, k: nat ::
      RunSettles(st, o, n, k) && RoundsTouch(st, n, k + 1) !! touched && Thorough(st, o, n, "OVERRIDES")
  }

  // What was cached while the overrides settled is still right after a write to other variables.
  lemma {:induction false} CacheSurvives(st: Store, after: Store, o: seq<string>, cache: Cache, touched: set<string>)
    requires SettledInto(st, o, cache) && SettlesThoroughly(st, o, touched) && SameBut(st, after, touched)
    ensures CacheFits(after, Some(o), cache)
  {
    hide SettledInto, CacheFits;
    var n: nat, k: nat :| RunSettles(st, o, n, k) && RoundsTouch(st, n, k + 1) !! touched
      && Thorough(st, o, n, "OVERRIDES");
    var names := EvalTouches(st, o, n, "OVERRIDES");
    assert names <= RoundsTouch(st, n, k + 1);
    if cache == map[] {
      EmptyFits(after, Some(o));
    } else {
      KnownWithin(st, o, cache, n);
      EntriesSurvive(st, after, o, cache, n);
    }
  }

  lemma EmptyFits(st: Store, inForce: Option<seq<string>>)
    ensures CacheFits(st, inForce, map[])
  {}

  lemma NothingKnown()
    ensures Known(map[]) == {}
  {}

  lemma KnownWithin(st: Store, o: seq<string>, cache: Cache, n: nat)
    requires SettledInto(st, o, cache) && cache != map[] && Thorough(st, o, n, "OVERRIDES")
    ensures CacheFits(st, Some(o), cache) && Known(cache) <= EvalTouches(st, o, n, "OVERRIDES")
  {
    assert {} + EvalTouches(st, o, n, "OVERRIDES") == EvalTouches(st, o, n, "OVERRIDES");
  }

  lemma {:induction false} EntriesSurvive(st: Store, after: Store, o: seq<string>, cache: Cache, n: nat)
    requires Thorough(st, o, n, "OVERRIDES") && Known(cache) <= EvalTouches(st, o, n, "OVERRIDES")
    requires CacheFits(st, Some(o), cache) && Agree(st, after, EvalTouches(st, o, n, "OVERRIDES"))
    ensures CacheFits(after, Some(o), cache)
  {
    hide Chosen, Thorough, EvalTouches;
    var names := EvalTouches(st, o, n, "OVERRIDES");
    forall u | u in cache ensures Fits(after, Some(o), u, EntryOf(cache[u])) && CarryFits(after, Some(o), u, cache[u]) {
      assert u in Known(cache) && Fits(st, Some(o), u, EntryOf(cache[u])) && CarryFits(st, Some(o), u, cache[u]);
      EntrySurvives(st, after, o, u, EntryOf(cache[u]), n);
      if cache[u].removes.Some? {
        forall k | k in cache[u].removes.value.lent ensures k in names {
          assert k in Known(cache);
        }
      }
    }
  }

  lemma {:induction false} EntrySurvives(st: Store, after: Store, o: seq<string>, u: string, e: Entry, n: nat)
    requires Thorough(st, o, n, "OVERRIDES") && u in EvalTouches(st, o, n, "OVERRIDES") && Fits(st, Some(o), u, e)
    requires Agree(st, after, EvalTouches(st, o, n, "OVERRIDES"))
    ensures Fits(after, Some(o), u, e)
  {
    hide EvalTouches, Eval, Thorough;
    TouchedIsRead(st, o, n, "OVERRIDES", u);
    var m: nat :| Thorough(st, o, m, u) && EvalTouches(st, o, m, u) <= EvalTouches(st, o, n, "OVERRIDES");
    ThoroughIsOk(st, o, m, u);
    assert Allows(Some(o), o) && Reads(st, o, u, Eval(st, o, m, u).value);
    ReadsIsFunctional(st, o, u, e, Eval(st, o, m, u).value);
    EvalFrame(st, after, o, m, u);
    assert Reads(after, o, u, e);
  }

  // ----- a plain write for which the overrides have to settle -----

  // When `setVar` makes the overrides settle, it has cleared the operators of `v` by then; what settling
  // must not look at is everything that the write still changes.
  ghost predicate StaleIsSafe(st: Store, v: string) {
    exists o :: StaleIsSafeUnder(st, v, o)
  }

  ghost predicate StaleIsSafeUnder(st: Store, v: string, o: seq<string>) {
    var (bare, touched) := (WithoutOpsOn(st, v), SetTouches(st, v, false, o));
    && RemovesAgree(bare) && SettlesWithout(bare, o, touched)
    && (ActiveNames(RecordsOf(st, v), o) == [] ==> SettlesThoroughly(bare, o, touched))
  }

  // With an active variant the cache is empty after the write, because the variant was deleted; without
  // one, what settling has cached is still right.
  lemma {:induction false} StaleWriteIsRight(st: Store, v: string, text: string, used: seq<string>, cache: Cache)
    requires ParseName(v).None? && StaleIsSafe(st, v)
    requires RemovesAgree(WithoutOpsOn(st, v)) ==> SettledInto(WithoutOpsOn(st, v), used, cache)
    requires ActiveNames(RecordsOf(st, v), used) != [] ==> cache == map[]
    ensures var after := AfterSetVar(st, v, text, false, used);
      Settles(after, used) && CacheFits(after, Some(used), cache)
  {
    hide AfterSetVar, RemovesAgree, Settles, SettlesWithout, SettlesThoroughly, SetTouches, ActiveNames, CacheFits;
    var bare := WithoutOpsOn(st, v);
    var o :| StaleIsSafeUnder(st, v, o);
    var after, touched := AfterSetVar(st, v, text, false, used), SetTouches(st, v, false, o);
    SettledOnce(bare, o, touched, used);
    SetTouchesOnly(st, v, text, false, used);
    BareIsTouched(st, v, after, used);
    StillSettles(bare, after, used, touched);
    if cache == map[] {
      EmptyFits(after, Some(used));
    } else {
      CacheSurvives(bare, after, used, cache, touched);
    }
  }

  lemma {:induction false} SettledOnce(st: Store, o: seq<string>, touched: set<string>, used: seq<string>)
    requires SettlesWithout(st, o, touched) && Settles(st, used)
    ensures used == o
  {
    StillSettles(st, st, o, touched);
    SettlesIsFunctional(st, o, used);
  }

  lemma {:induction false} BareIsTouched(st: Store, v: string, after: Store, used: seq<string>)
    requires ParseName(v).None? && SameBut(st, after, SetTouches(st, v, false, used))
    ensures SameBut(WithoutOpsOn(st, v), after, SetTouches(st, v, false, used))
  {
    forall k | k !in SetTouches(st, v, false, used) ensures Same(WithoutOpsOn(st, v), after, k) {
      assert k != v && Same(st, after, k);
    }
  }

  lemma {:induction false} DelKeepsSettled(st: Store, inForce: Option<seq<string>>, v: string)
    requires inForce.Some? ==> SettlesWithout(st, inForce.value, DelTouches(v))
    ensures Settled(AfterDel(st, v), inForce)
  {
    if inForce.Some? {
      DelTouchesOnly(st, v);
      StillSettles(st, AfterDel(st, v), inForce.value, DelTouches(v));
    }
  }

  lemma {:induction false} WeakKeepsSettled(st: Store, inForce: Option<seq<string>>, v: string, text: string)
    ensures (inForce.Some? ==> SettlesWithout(st, inForce.value, DelTouches(v))) ==>
      Settled(AfterWeak(st, v, text), inForce)
  {
    RecordNameTouches(st.recorded, v);
    assert SameBut(st, AfterWeak(st, v, text), DelTouches(v));
    if inForce.Some? && SettlesWithout(st, inForce.value, DelTouches(v)) {
      StillSettles(st, AfterWeak(st, v, text), inForce.value, DelTouches(v));
    }
  }

  lemma {:induction false} FlagKeepsSettled(st: Store, inForce: Option<seq<string>>, v: string, flag: string,
                                            text: string)
    ensures (inForce.Some? ==> SettlesWithout(st, inForce.value, DelTouches(v))) ==>
      Settled(AfterFlag(st, v, flag, text), inForce)
  {
    assert SameBut(st, AfterFlag(st, v, flag, text), DelTouches(v));
    if inForce.Some? && SettlesWithout(st, inForce.value, DelTouches(v)) {
      StillSettles(st, AfterFlag(st, v, flag, text), inForce.value, DelTouches(v));
    }
  }

  lemma {:induction false} RenameKeepsSettled(st: Store, inForce: Option<seq<string>>, key: string, newkey: string,
                                              depth: nat, after: Store)
    requires SameOutcome(Ok(after), AfterRename(st, key, newkey, depth))
    ensures (inForce.Some? ==> SettlesWithout(st, inForce.value, RenameTouches(st, key, newkey, depth))) ==>
      Settled(after, inForce)
  {
    hide AfterRename, RenameTouches, SettlesWithout, Settles;
    var touched := RenameTouches(st, key, newkey, depth);
    if inForce.Some? && SettlesWithout(st, inForce.value, touched) {
      RenameTouchesOnly(st, key, newkey, depth);
      var renamed := AfterRename(st, key, newkey, depth).value;
      forall k | k !in touched ensures Same(st, after, k) {
        assert Same(st, renamed, k) && FlagsOf(after, k) == FlagsOf(renamed, k);
      }
      StillSettles(st, after, inForce.value, touched);
    }
  }

  // ----- the watched variables -----

  // From `was` to `now` the variables `named` have been added: all that the value of `v` refers to is
  // watched, and all that the expanded values of those variables refer to; and each of them is one of these.
  ghost predicate Watches(st: Store, o: seq<string>, v: string, value: string, was: set<string>, now: set<string>) {
    exists named :: WatchesSoFar(st, o, v, value, was, now, named, {})
  }

  // On the way, with `next` still to be watched.
  ghost predicate WatchesSoFar(st: Store, o: seq<string>, v: string, value: string, was: set<string>,
                               now: set<string>, named: set<string>, next: set<string>) {
    && now == was + named && (forall x :: RefersTo(st, o, v, value, x) ==> x in now + next)
    && (forall x, y :: y in named && ValueRefersTo(st, o, y, x) ==> x in now + next)
    && (forall x :: x in named + next ==>
          RefersTo(st, o, v, value, x) || exists y :: y in named && ValueRefersTo(st, o, y, x))
  }

  lemma {:induction false} TextRefers(st: Store, o: seq<string>, v: string, value: string, t: string,
                                      refs: set<string>, was: set<string>)
    requires ExpandFits(st, Some(o), v, value, t, refs)
    ensures WatchesSoFar(st, o, v, value, was, was, {}, refs)
  {
    assert Allows(Some(o), o);
    RefersToThose(st, o, v, value, t, refs);
  }

  lemma {:induction false} WatchesMore(st: Store, o: seq<string>, v: string, value: string, was: set<string>,
                                       now: set<string>, named: set<string>, next: set<string>, found: set<string>)
    requires WatchesSoFar(st, o, v, value, was, now, named, next)
    requires forall x :: x in found <==> exists y :: y in next && ValueRefersTo(st, o, y, x)
    ensures WatchesSoFar(st, o, v, value, was, now + next, named + next, found)
  {
    hide RefersTo, ValueRefersTo;
    forall x | x in named + next + found
      ensures RefersTo(st, o, v, value, x) || exists y :: y in named + next && ValueRefersTo(st, o, y, x)
    {
      if x in found {
        var y :| y in next && ValueRefersTo(st, o, y, x);
        assert y in named + next;
      } else if !RefersTo(st, o, v, value, x) {
        var y :| y in named && ValueRefersTo(st, o, y, x);
        assert y in named + next;
      }
    }
  }

  lemma {:induction false} WatchesAll(st: Store, o: seq<string>, v: string, value: string, was: set<string>,
                                      now: set<string>, named: set<string>, next: set<string>)
    requires WatchesSoFar(st, o, v, value, was, now, named, next) && next <= now
    ensures Watches(st, o, v, value, was, now)
  {
    hide RefersTo, ValueRefersTo;
    assert WatchesSoFar(st, o, v, value, was, now, named, {});
  }

  function FailureOf<T>(r: Result<T, Problem>): Option<Problem> {
    if r.Ok? then None else Some(r.error)
  }
}
