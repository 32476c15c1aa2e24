// The datastore itself (data_smart.py:424-901): a chain of dictionaries, `overridedata` with
// its lists, the overrides in force, and the expansion cache.
//
// Dictionaries and lists are objects on the heap, so that what a copy shares with its parent
// is shared here too. `View` is the abstract value: what the store holds.
module DataStore {
  import opened Prelude
  import opened Text
  import opened Words
  import opened OverrideScan
  import opened Expansion
  import opened OverrideRounds
  import opened EvalSteps
  import opened ThoroughReads
  import opened StoreOps
  import opened StoreLaws
  import opened StoreRename
  import opened StoreKeys
  import opened CacheFacts
  import opened StoreCommands

  // list.remove, with the ValueError passed over
  method RemoveFrom<T(==)>(l: PyList<T>, x: T)
    modifies l
    ensures l.items == RemoveFirst(old(l.items), x)
  {
    l.items := RemoveFirst(l.items, x);
  }

  function ItemsOf<T>(l: PyList?<T>): seq<T>
    reads l
  {
    if l == null then [] else l.items
  }

  // The dictionary of flags of one variable; the three operator flags hold lists.
  datatype FlagDict = FlagDict(content: Option<string>, weak: Option<string>,
                               appends: PyList?<Op>, prepends: PyList?<Op>, removes: PyList?<Op>,
                               others: map<string, string>)

  const NO_FLAG_DICT := FlagDict(None, None, null, null, null, map[])

  function FlagLists(f: FlagDict): set<object?> {
    {f.appends, f.prepends, f.removes}
  }

  function ViewFlags(f: FlagDict): Flags
    reads FlagLists(f)
  {
    Flags(f.content, f.weak, ItemsOf(f.appends), ItemsOf(f.prepends), ItemsOf(f.removes), f.others)
  }

  // `self.dict`, linked to the parent's dictionary through "_data".
  class VarDict {
    var vars: map<string, FlagDict>
    const data: VarDict?
    ghost const ancestors: set<VarDict>

    constructor (data: VarDict?)
      requires data != null ==> data.Linked()
      ensures Linked() && vars == map[] && this.data == data && All() == if data == null then map[] else data.All()
      ensures ancestors == if data == null then {} else {data} + data.ancestors
    {
      this.vars := map[];
      this.data := data;
      this.ancestors := if data == null then {} else {data} + data.ancestors;
    }

    ghost predicate Linked()
      decreases ancestors
    {
      this !in ancestors &&
      if data == null then ancestors == {}
      else data !in data.ancestors && ancestors == {data} + data.ancestors && data.Linked()
    }

    // The dictionaries of the chain as one.
    ghost function All(): map<string, FlagDict>
      requires Linked()
      reads this, ancestors
      decreases ancestors
    {
      if data == null then vars else data.All() + vars
    }

    method Put(v: string, f: FlagDict)
      requires Linked()
      modifies this
      ensures vars == old(vars)[v := f] && All() == old(All())[v := f]
    {
      vars := vars[v := f];
      assert data != null ==> data.All() == old(data.All());
    }

    // `_findVar`
    method FindVar(v: string) returns (f: Option<FlagDict>)
      requires Linked()
      ensures f == if v in All() then Some(All()[v]) else None
    {
      var dest: VarDict? := this;
      while dest != null
        invariant dest != null ==> dest.Linked()
        invariant (if v in All() then Some(All()[v]) else None)
               == if dest == null then None else if v in dest.All() then Some(dest.All()[v]) else None
        decreases if dest == null then {} else {dest} + dest.ancestors
      {
        if v in dest.vars {
          return Some(dest.vars[v]);
        }
        dest := dest.data;
      }
      return None;
    }

    // `keylist`: a name that is empty here hides the same name further up.
    method KeyList(deleted0: set<string>, overrides: set<string>) returns (klist: set<string>, deleted: set<string>)
      requires Linked()
      ensures klist == NamesIn(All(), deleted0 + overrides)
      decreases ancestors
    {
      klist, deleted := {}, deleted0;
      var todo := vars.Keys;
      while todo != {}
        invariant todo <= vars.Keys
        invariant klist == NamesIn(vars, deleted0 + overrides + todo)
        invariant deleted0 <= deleted
        invariant forall k :: k in deleted - deleted0 <==>
          k in vars && vars[k] == NO_FLAG_DICT && k !in deleted0 + overrides + todo
      {
        var key :| key in todo;
        todo := todo - {key};
        if key !in deleted && key !in overrides {
          if vars[key] == NO_FLAG_DICT {
            deleted := deleted + {key};
          } else {
            klist := klist + {key};
          }
        }
      }
      if data != null {
        var above;
        above, deleted := data.KeyList(deleted, overrides);
        klist := klist + above;
      }
    }
  }

  // The names with flags in a merged dictionary, without those in `skipped`.
  function NamesIn(vars: map<string, FlagDict>, skipped: set<string>): set<string> {
    set k | k in vars && vars[k] != NO_FLAG_DICT && k !in skipped
  }

  function AllLists(vars: map<string, FlagDict>): set<object?> {
    set v, l | v in vars && l in FlagLists(vars[v]) :: l
  }

  function RecordLists(recorded: map<string, PyList<Record>>): set<object> {
    set v | v in recorded :: recorded[v]
  }

  // The flags of all variables, read through the lists.
  ghost function ViewVars(vars: map<string, FlagDict>): map<string, Flags>
    reads AllLists(vars)
  {
    map v | v in vars :: ViewFlagsIn(vars, v)
  }

  ghost function ViewFlagsIn(vars: map<string, FlagDict>, v: string): Flags
    requires v in vars
    reads AllLists(vars)
  {
    assert FlagLists(vars[v]) <= AllLists(vars);
    ViewFlags(vars[v])
  }

  lemma {:induction false} ViewVarsPut(vars: map<string, FlagDict>, v: string, f: FlagDict)
    ensures ViewVars(vars[v := f]) == ViewVars(vars)[v := ViewFlags(f)]
  {
    var updated := vars[v := f];
    forall x | x in updated ensures ViewVars(updated)[x] == ViewVars(vars)[v := ViewFlags(f)][x] {}
  }

  lemma AllListsPut(vars: map<string, FlagDict>, v: string, f: FlagDict)
    ensures AllLists(vars[v := f]) <= AllLists(vars) + FlagLists(f)
  {}

  function OpsOf(f: FlagDict, keyword: Keyword): PyList?<Op> {
    match keyword
    case Append => f.appends
    case Prepend => f.prepends
    case Remove => f.removes
  }

  function WithOps(f: FlagDict, keyword: Keyword, l: PyList<Op>): FlagDict {
    match keyword
    case Append => f.(appends := l)
    case Prepend => f.(prepends := l)
    case Remove => f.(removes := l)
  }

  // The loop step of `_setvar_update_overrides` and `delVar`: one more segment goes to the override.
  // No override is the empty string.
  function ShorterName(v: string, short: string): (r: (string, string))
    requires short <= v
    ensures r.1 <= v && (|r.1| < |short| || (r.1 == short && r.0 == ""))
  {
    match LastColon(short)
    case None => ("", short)
    case Some(p) => (if p == 0 then "" else v[p + 1..], v[..p])
  }

  lemma {:induction false} RecordAtOnce(rec: map<string, seq<Record>>, v: string, short: string, override: string)
    requires short <= v && IsOverride(override)
    ensures var (o, s) := ShorterName(v, short);
      RecordAt(rec, v, short, override) == RecordAt(AddRecord(rec, short, Record(v, override)), v, s, o)
  {
    var p := LastColon(short);
    assert p.Some? ==> short[..p.value] == v[..p.value];
  }

  lemma {:induction false} UnrecordAtOnce(rec: map<string, seq<Record>>, v: string, short: string, override: string)
    requires short <= v && IsOverride(override)
    ensures var (o, s) := ShorterName(v, short);
      UnrecordAt(rec, v, short, override) == UnrecordAt(DropRecord(rec, short, Record(v, override)), v, s, o)
  {
    var p := LastColon(short);
    assert p.Some? ==> short[..p.value] == v[..p.value];
  }

  lemma OverwriteFlags(st: Store, v: string, f: Flags, g: Flags)
    ensures WithFlags(WithFlags(st, v, f), v, g) == WithFlags(st, v, g)
  {
    assert st.vars[v := f][v := g] == st.vars[v := g];
  }

  lemma SameFlags(st: Store, v: string)
    requires v in st.vars
    ensures WithFlags(st, v, FlagsOf(st, v)) == st
  {
    assert st.vars[v := st.vars[v]] == st.vars;
  }

  lemma OpsOfView(f: FlagDict, keyword: Keyword)
    ensures OpsOf(f, keyword) in FlagLists(f)
    ensures ItemsOf(OpsOf(f, keyword)) == (match keyword
      case Append => ViewFlags(f).appends case Prepend => ViewFlags(f).prepends case Remove => ViewFlags(f).removes)
  {}

  // The program's last step: drop the removed words from the value.
  method ApplyRemoves(raw: Option<string>, value: Option<string>, refs: set<string>, words: map<string, set<string>>,
                      present: bool)
    returns (p: Parsed)
    requires forall w :: w in Gone(words) ==> IsWord(w)
    requires present ==> value.Some?
    requires OrEmpty(value) != "" ==> present
    ensures EntryOf(p) == Assemble(raw, value, refs, words)
    ensures p.removes.Some? <==> present && words != map[]
    ensures p.removes.Some? ==> p.removes.value.lent == map[]
  {
    p := Parsed(raw, value, refs, None);
    if present && words != map[] {
      var kept := DropWords(value.value, Gone(words));
      p := Parsed(raw, Some(kept), refs, Some(Carry(Used(words, value.value), map[])));
    }
  }

  class DataSmart {
    var dict: VarDict
    var overridedata: map<string, PyList<Record>>
    var overrides: Option<seq<string>>
    var overridevars: set<string>
    var inoverride: bool
    var expandCache: Cache

    // Everything that this store reads: the chain of dictionaries and all lists in it.
    ghost var objects: set<object>

    constructor ()
      ensures Valid() && fresh(dict) && fresh(objects) && View() == Store(map[], map[])
      ensures overrides == None && !inoverride && expandCache == map[]
      ensures overridevars == {"OVERRIDES", "FILE"}
    {
      var d := new VarDict(null);
      dict := d;
      overridedata := map[];
      overrides := None;
      overridevars := {"OVERRIDES", "FILE"};
      inoverride := false;
      expandCache := map[];
      objects := {d};
    }

    ghost predicate Valid()
      reads this`dict, this`overridedata, this`objects, objects
    {
      && this !in objects && dict in objects && dict.ancestors <= objects
      && dict.Linked()
      && AllLists(dict.All()) <= objects + {null}
      && RecordLists(overridedata) <= objects
    }

    // What the store holds.
    ghost function View(): Store
      requires Valid()
      reads this`dict, this`overridedata, this`objects, objects
    {
      Store(ViewVars(dict.All()), map v | v in overridedata :: overridedata[v].items)
    }

    // ----- reading -----
    //
    // `st` is what the store holds. `ok` says that the cache is right to begin with; only then
    // can the results be. A read changes nothing but the cache and the overrides in force.

    // After a read that started under `before` with the cache `was`: overrides come into force only by
    // settling, and unless they did not settle the cache is right under those in force. With overrides
    // in force from the start nothing that was cached is lost.
    ghost predicate ReadDone(st: Store, ok: bool, before: Option<seq<string>>, was: Cache, failure: Option<Problem>)
      reads this`overrides, this`expandCache
    {
      && Narrows(before, overrides) && (before.Some? ==> Grows(was, expandCache))
      && (ok && failure.None? && overrides != before ==> overrides.Some? && Settles(st, overrides.value))
      && (ok && failure != Some(Unstable) ==> CacheFits(st, overrides, expandCache))
    }

    // What has become known since `was`, once a read of `v` under overrides in force has gone through.
    ghost predicate ReadSees(st: Store, ok: bool, before: Option<seq<string>>, was: Cache, v: string)
      reads this`expandCache
    {
      ok && before.Some? ==> Sees(st, before.value, Known(was), Known(expandCache), v)
    }

    // `need_overrides`
    method NeedOverrides(depth: nat, ghost st: Store, ghost ok: bool) returns (problem: Option<Problem>)
      requires Valid() && st == View()
      requires ok ==> Right(st, overrides, expandCache)
      modifies this`overrides, this`inoverride, this`expandCache
      ensures Valid() && st == View() && ReadDone(st, ok, old(overrides), old(expandCache), problem)
      ensures old(overrides).Some? || old(inoverride) ==>
                problem == None && overrides == old(overrides) && inoverride == old(inoverride)
                  && expandCache == old(expandCache)
      ensures problem.None? ==> inoverride == old(inoverride)
      ensures problem.None? && old(overrides).None? && !old(inoverride) ==>
                && overrides.Some? && "OVERRIDES" in expandCache
                && (ok ==> Sees(st, overrides.value, {}, Known(expandCache), "OVERRIDES"))
      ensures CanSettle(st, ok, depth) ==> problem.None?
      decreases depth, 4, 0
    {
      hide View, Settles, CacheFits, RemovesAgree, Sees, Known, IsRound, RoundIsThorough, IsSameRound, NotYet;
      GrowsByNothing(expandCache);
      if overrides.Some? || inoverride {
        return None;
      }
      ghost var able := CanSettle(st, ok, depth);
      ghost var k: nat :| able ==> CanSettleAt(st, depth, k);
      var count: nat := 0;
      while count < 5
        invariant 0 <= count <= 5 && Valid() && st == View()
        invariant RoundState(st, ok, count)
        invariant able ==> count < k
      {
        if able { assert RoundIsThorough(st, depth, 0) && RoundIsThorough(st, depth, count + 1); }
        var stable;
        problem, stable := OverrideRound(depth, count, st, ok);
        if problem.Some? || stable {
          return;
        }
        if able { StableByThen(st, depth, k, count); }
        count := count + 1;
      }
      return Some(Unstable);
    }

    // Before iteration `count` of the loop in `need_overrides`: the next value of OVERRIDES is in
    // the cache, though the rest of the cache was read under the one before.
    ghost predicate RoundState(st: Store, ok: bool, count: nat)
      reads this`overrides, this`inoverride, this`expandCache
    {
      && !inoverride && (ok ==> RemovesAgree(st))
      && if count == 0 then overrides.None? && (ok ==> CacheFits(st, overrides, expandCache))
         else overrides.Some? && "OVERRIDES" in expandCache
              && (ok ==> IsRound(st, count + 1, SplitOverrides(expandCache["OVERRIDES"].value)))
    }

    // The first read of an iteration, with dummy overrides in force. In the first iteration it is a
    // read under no overrides; in the later ones it finds the value that the last one left.
    method ReadWithDummy(depth: nat, count: nat, ghost st: Store, ghost ok: bool) returns (r: Result<Parsed, Problem>)
      requires Valid() && st == View() && RoundState(st, ok, count)
      modifies this`overrides, this`inoverride, this`expandCache
      ensures st == View()
      ensures r.Ok? && ok ==> IsRound(st, count + 1, SplitOverrides(r.value.value))
      ensures r.Err? && r != Err(Unstable) && ok ==> CacheFits(st, overrides, expandCache)
      ensures ok && RoundIsThorough(st, depth, 0) ==> r.Ok?
      decreases depth, 1, 0
    {
      hide View, Thorough, Sees, ReadsThrough, RemovesAgree, IsRound;
      FirstRound(st);
      inoverride := true;
      overrides := Some([]);
      r := GetEntry(depth, "OVERRIDES", true, st, ok && count == 0);
      if r.Ok? && count == 0 && ok {
        RoundRead(st, 0, [], EntryOf(r.value), SplitOverrides(r.value.value));
      }
    }

    // The first half of an iteration: the value of OVERRIDES becomes the overrides in force.
    method TakeOverrides(depth: nat, count: nat, ghost st: Store, ghost ok: bool)
        returns (problem: Option<Problem>, o: seq<string>)
      requires Valid() && st == View() && RoundState(st, ok, count)
      modifies this`overrides, this`inoverride, this`expandCache
      ensures st == View()
      ensures problem.None? ==> overrides == Some(o) && !inoverride && expandCache == map[]
      ensures problem.None? && ok ==> IsRound(st, count + 1, o)
      ensures problem.Some? && problem != Some(Unstable) && ok ==> CacheFits(st, overrides, expandCache)
      ensures ok && RoundIsThorough(st, depth, 0) ==> problem.None?
      decreases depth, 2, 0
    {
      hide View;
      var r := ReadWithDummy(depth, count, st, ok);
      if r.Err? {
        return Some(r.error), [];
      }
      o := SplitOverrides(r.value.value);
      overrides, inoverride, expandCache := Some(o), false, map[];
      return None, o;
    }

    // The whole iteration.
    method OverrideRound(depth: nat, count: nat, ghost st: Store, ghost ok: bool)
        returns (problem: Option<Problem>, stable: bool)
      requires Valid() && st == View() && RoundState(st, ok, count) && count < 5
      modifies this`overrides, this`inoverride, this`expandCache
      ensures st == View()
      ensures problem.None? && !stable ==> RoundState(st, ok, count + 1)
      ensures problem.None? && stable ==> overrides.Some? && !inoverride && "OVERRIDES" in expandCache
      ensures problem.None? && stable && ok ==>
        Settles(st, overrides.value) && Sees(st, overrides.value, {}, Known(expandCache), "OVERRIDES")
      ensures ok && (if problem.None? then stable else problem != Some(Unstable)) ==>
        CacheFits(st, overrides, expandCache)
      ensures ok && RoundIsThorough(st, depth, 0) && RoundIsThorough(st, depth, count + 1) ==> problem.None?
      ensures ok && problem.None? && !stable ==> NotYet(st, count)
      decreases depth, 3, 0
    {
      hide View, Thorough, Sees, ReadsThrough, RemovesAgree, IsRound, Known, NotYet, Settles, CacheFits, Grows,
        PlainStep, PlainEffect, CarryFits, SplitOverrides;
      stable := false;
      var o;
      problem, o := TakeOverrides(depth, count, st, ok);
      if problem.Some? {
        return;
      }
      NothingKnown();
      if ok { EmptyFits(st, overrides); }
      var r := GetEntry(depth, "OVERRIDES", true, st, ok);
      if r.Err? {
        return Some(r.error), false;
      }
      var newoverrides := SplitOverrides(r.value.value);
      if ok {
        RoundRead(st, count + 1, o, EntryOf(r.value), newoverrides);
      }
      if newoverrides == o {
        return None, true;
      }
      if ok { NotYetStable(st, count, o, newoverrides); }
      overrides := Some(newoverrides);
      return None, false;
    }

    // `getVarFlag(v, "_content")` with a parser: the cached entry, or a new one that is cached.
    // `expand` is false for the calls that pass expand=False and retparser=True.
    method GetEntry(depth: nat, v: string, expand: bool, ghost st: Store, ghost ok: bool)
        returns (r: Result<Parsed, Problem>)
      requires Valid() && st == View()
      requires ok ==> Right(st, overrides, expandCache)
      modifies this`overrides, this`inoverride, this`expandCache
      ensures Valid() && st == View() && ReadDone(st, ok, old(overrides), old(expandCache), FailureOf(r))
      ensures v in old(expandCache) ==>
                r == Ok(old(expandCache)[v]) && overrides == old(overrides) && inoverride == old(inoverride)
                  && expandCache == old(expandCache)
      ensures r.Ok? ==> inoverride == old(inoverride) && v in expandCache && expandCache[v] == r.value
      ensures ok && r.Ok? ==> Fits(st, overrides, v, EntryOf(r.value))
      ensures r.Ok? ==> ReadSees(st, ok, old(overrides), old(expandCache), v)
      ensures r.Ok? && v !in old(expandCache) && old(overrides).Some?
              && Chosen(RecordsOf(st, v), old(overrides).value) != Some(v) ==>
                ReadsThrough(st, old(overrides).value, v, r.value, expandCache)
      ensures CanRead(st, ok, old(overrides), depth, v) ==> r.Ok?
      ensures depth > 0 && v !in old(expandCache) && PlainStep(st, old(overrides), old(expandCache), v) ==>
        r.Ok? && exists mid ::
          PlainEffect(st, old(overrides), old(expandCache), mid, v) && expandCache == mid[v := r.value]
      decreases depth, 0, 1
    {
      hide View, RemovesAgree, CacheFits, Grows, Known, Sees, ReadsThrough, Thorough;
      if v in expandCache {
        GrowsByNothing(expandCache);
        if overrides.Some? { SeesNothingNew(st, overrides.value, Known(expandCache), v); }
        if ok { CachedFits(st, overrides, expandCache, v); }
        return Ok(expandCache[v]);
      }
      r := ReadAfresh(depth, v, expand, st, ok);
      if r.Ok? {
        ghost var cache := expandCache;
        expandCache := expandCache[v := r.value];
        if ok { PutFits(st, overrides, cache, v, r.value); }
        if old(overrides).Some? {
          PutGrows(old(expandCache), cache, v, r.value);
          if ok { SeesEntry(st, overrides.value, Known(old(expandCache)), cache, v, r.value); }
          if Chosen(RecordsOf(st, v), overrides.value) != Some(v) {
            EntryThrough(st, overrides.value, v, r.value, cache);
          }
        }
      }
    }

    // The read when there is no cached entry.
    method ReadAfresh(depth: nat, v: string, expand: bool, ghost st: Store, ghost ok: bool)
        returns (r: Result<Parsed, Problem>)
      requires Valid() && st == View()
      requires ok ==> Right(st, overrides, expandCache)
      modifies this`overrides, this`inoverride, this`expandCache
      ensures Valid() && st == View() && ReadDone(st, ok, old(overrides), old(expandCache), FailureOf(r))
      ensures r.Ok? ==> inoverride == old(inoverride)
      ensures ok && r.Ok? ==> Fits(st, overrides, v, EntryOf(r.value)) && CarryFits(st, overrides, v, r.value)
      ensures r.Ok? ==> (r.value.removes.Some? ==> r.value.removes.value.lent == map[])
      ensures r.Ok? ==> ReadSees(st, ok, old(overrides), old(expandCache), v)
      ensures r.Ok? && old(overrides).Some? ==> ReadsThrough(st, old(overrides).value, v, r.value, expandCache)
      ensures CanRead(st, ok, old(overrides), depth, v) ==> r.Ok?
      ensures depth > 0 && PlainStep(st, old(overrides), old(expandCache), v) ==>
        r.Ok? && PlainEffect(st, old(overrides), old(expandCache), expandCache, v)
      decreases depth, 0, 0
    {
      hide View, ViewFlags, FlagLists, RemovesAgree, CacheFits, Grows, Known, Sees, SeesFrom, SeesVariant,
        ReadsThrough, Thorough, VariantFrom, PlainStep, PlainEffect, VariantAtHand, VariantIs, ActiveTexts, Settles;
      hide Chosen, EntryOf, RawFrom, RemovesOf, SharedCache, Fits, PlainOption, OrEmpty, CanCompute;
      ghost var plain := PlainStep(st, overrides, expandCache, v);
      if plain { PlainAtHand(st, overrides, expandCache, v); }
      ghost var able, was := CanRead(st, ok, overrides, depth, v), expandCache;
      if able { CanReadParts(st, ok, overrides, depth, v); }
      if depth == 0 {
        GrowsByNothing(expandCache);
        return Err(TooDeep);
      }
      var found := GetVariant(depth - 1, v, st, ok);
      if found.Err? {
        return Err(found.error);
      }
      var (variant, lender) := found.value;
      assert able ==> Allows(overrides, overrides.value);
      ghost var mid := expandCache;
      if plain { PlainStepParts(st, overrides, mid, v, variant, lender); }
      var f := Lookup(v);
      r := Compute(depth - 1, v, expand, f, variant, lender, st, ok);
      if old(overrides).Some? {
        GrowsOn(was, mid, expandCache);
        if ok && r.Ok? { SeesBoth(st, overrides.value, Known(was), Known(mid), Known(expandCache), v, variant); }
      }
    }

    // The flags of `v`, here or in the nearest ancestor that has some.
    method Lookup(v: string) returns (f: FlagDict)
      requires Valid()
      ensures FlagLists(f) <= objects + {null} && ViewFlags(f) == FlagsOf(View(), v)
    {
      var found := dict.FindVar(v);
      if found.None? {
        return NO_FLAG_DICT;
      }
      assert FlagLists(found.value) <= AllLists(dict.All());
      return found.value;
    }

    // The new entry for `v`, from its flags and the variant.
    method Compute(depth: nat, v: string, expand: bool, f: FlagDict, variant: Entry, lender: Option<string>,
                   ghost st: Store, ghost ok: bool)
      returns (r: Result<Parsed, Problem>)
      requires Valid() && st == View() && FlagLists(f) <= objects + {null} && ViewFlags(f) == FlagsOf(st, v)
      requires ok ==> Right(st, overrides, expandCache)
      requires ok ==> forall o :: Allows(overrides, o) ==> VariantIs(st, o, v, variant)
      requires VariantFrom(st, overrides, expandCache, v, variant, lender)
      modifies this`overrides, this`inoverride, this`expandCache
      ensures Valid() && st == View() && ReadDone(st, ok, old(overrides), old(expandCache), FailureOf(r))
      ensures r.Ok? ==> inoverride == old(inoverride)
      ensures ok && r.Ok? ==> Fits(st, overrides, v, EntryOf(r.value))
      ensures r.Ok? && r.value.removes.Some? ==> r.value.removes.value.lent == map[] && CanCarry(st, v)
      ensures ok && r.Ok? && old(overrides).Some? ==>
        SeesFrom(st, old(overrides).value, Known(old(expandCache)), Known(expandCache), v, variant)
      ensures r.Ok? && old(overrides).Some? ==> ReadsThrough(st, old(overrides).value, v, r.value, expandCache)
      ensures CanCompute(st, ok, old(overrides), depth, v, variant) ==> r.Ok?
      ensures old(overrides).Some? && PlainOption(RawFrom(FlagsOf(st, v), variant.raw, old(overrides).value)) ==>
        var removes := RemovesOf(lender, old(expandCache)) + ActiveTexts(FlagsOf(st, v).removes, old(overrides).value);
        PlainTexts(removes) ==>
          r.Ok? && expandCache == if OrEmpty(RawFrom(FlagsOf(st, v), variant.raw, old(overrides).value)) == ""
            then old(expandCache)
            else SharedCache(old(expandCache), lender, v, ActiveTexts(FlagsOf(st, v).removes, old(overrides).value))
      decreases depth, 6, 0
    {
      hide View, ViewFlags, FlagLists, RawFrom, Gone, VariantFrom, ReadsThrough, RemovesAgree, CacheFits, Grows,
        Known, SeesFrom, SeesTexts, SeesOption, PlainStays, Thorough, ThoroughFrom, ThoroughText, ThoroughTexts,
        VariantIs, OptionExpandsTo, ActiveTexts, Settles, Fits, RemovesOf, CanCompute, EntryOf, CarryFits,
        SharedCache;
      if CanCompute(st, ok, overrides, depth, v, variant) { CanComputeParts(st, ok, overrides, depth, v, variant); }
      var values := Values(depth, v, f, variant.raw, st, ok);
      if values.Err? {
        return Err(values.error);
      }
      var (raw, value, refs) := values.value;
      VariantStays(st, old(overrides), old(expandCache), overrides, expandCache, v, variant, lender);
      ghost var mid := expandCache;
      var present := if expand then OrEmpty(value) != "" else OrEmpty(raw) != "";
      r := WithoutRemoved(depth, v, f, variant, lender, raw, value, refs, present, st, ok);
      if old(overrides).Some? {
        GrowsOn(old(expandCache), mid, expandCache);
        if ok && r.Ok? {
          ComputedSees(st, overrides.value, Known(old(expandCache)), Known(mid), Known(expandCache), v, variant,
            present);
        }
      }
    }

    // The second half: the removed words are dropped from the value.
    method WithoutRemoved(depth: nat, v: string, f: FlagDict, ghost variant: Entry, lender: Option<string>,
                          raw: Option<string>, value: Option<string>,
                          refs: set<string>, present: bool, ghost st: Store, ghost ok: bool)
                            returns (r: Result<Parsed, Problem>)
      requires Valid() && st == View() && FlagLists(f) <= objects + {null} && ViewFlags(f) == FlagsOf(st, v)
      requires ok ==> Right(st, overrides, expandCache)
      requires ok ==> forall o :: Allows(overrides, o) ==>
        VariantIs(st, o, v, variant) && OptionExpandsTo(st, o, v, raw, value, refs)
      requires forall o :: Allows(overrides, o) ==> RawFrom(FlagsOf(st, v), variant.raw, o) == raw
      requires VariantFrom(st, overrides, expandCache, v, variant, lender)
      requires PlainStays(raw, value, refs) && (present ==> OrEmpty(raw) != "") && (OrEmpty(value) != "" ==> present)
      modifies this`overrides, this`inoverride, this`expandCache
      ensures Valid() && st == View() && ReadDone(st, ok, old(overrides), old(expandCache), FailureOf(r))
      ensures r.Ok? ==> inoverride == old(inoverride)
      ensures ok && r.Ok? ==> Fits(st, overrides, v, EntryOf(r.value))
      ensures r.Ok? && r.value.removes.Some? ==> r.value.removes.value.lent == map[] && CanCarry(st, v)
      ensures !present ==> expandCache == old(expandCache)
      ensures ok && r.Ok? && present && old(overrides).Some? ==>
        SeesTexts(st, old(overrides).value, Known(old(expandCache)) + {v}, Known(expandCache),
                  variant.removes + ActiveTexts(FlagsOf(st, v).removes, old(overrides).value))
      ensures r.Ok? && old(overrides).Some? ==> ReadsThrough(st, old(overrides).value, v, r.value, expandCache)
      ensures old(overrides).Some? ==>
        var removes := variant.removes + ActiveTexts(FlagsOf(st, v).removes, old(overrides).value);
        (present ==> CanExpandAll(st, ok, old(overrides), depth, removes)) ==> r.Ok?
      ensures old(overrides).Some? ==>
        var active := ActiveTexts(FlagsOf(st, v).removes, old(overrides).value);
        PlainTexts(RemovesOf(lender, old(expandCache)) + active) ==>
          r.Ok? && (present ==> expandCache == SharedCache(old(expandCache), lender, v, active))
      decreases depth, 5, 1
    {
      hide View, ViewFlags, FlagLists, RawFrom, Gone, VariantFrom, ReadsThrough, RemovesAgree, CacheFits, Grows,
        Known, SeesTexts, PlainWordsStay, HasLent, Thorough, RemovesOf, VariantIs, OptionExpandsTo, WordsAre,
        ActiveTexts, Fits, Settles;
      var words := GetWords(depth, v, f, variant, lender, present, st, ok);
      if words.Err? {
        return Err(words.error);
      }
      var p := ApplyRemoves(raw, value, refs, words.value, present);
      if ok { EntryFits(st, overrides, v, variant, raw, value, refs, words.value); }
      if old(overrides).Some? {
        VariantStays(st, overrides, old(expandCache), overrides, expandCache, v, variant, lender);
        ComputedThrough(st, overrides.value, v, variant, lender, expandCache, raw, value, refs, words.value, present,
          p);
      }
      return Ok(p);
    }

    // The unexpanded value, the expanded value, and what it refers to.
    method Values(depth: nat, v: string, f: FlagDict, variant: Option<string>, ghost st: Store, ghost ok: bool)
      returns (r: Result<(Option<string>, Option<string>, set<string>), Problem>)
      requires Valid() && st == View() && FlagLists(f) <= objects + {null} && ViewFlags(f) == FlagsOf(st, v)
      requires ok ==> Right(st, overrides, expandCache)
      modifies this`overrides, this`inoverride, this`expandCache
      ensures Valid() && st == View() && ReadDone(st, ok, old(overrides), old(expandCache), FailureOf(r))
      ensures r.Ok? ==> inoverride == old(inoverride)
      ensures r.Ok? ==> OrEmpty(r.value.0) == "" ==> OrEmpty(r.value.1) == ""
      ensures r.Ok? ==> PlainStays(r.value.0, r.value.1, r.value.2)
      ensures r.Ok? ==> forall o :: Allows(overrides, o) ==> RawFrom(FlagsOf(st, v), variant, o) == r.value.0
      ensures ok && r.Ok? ==> forall o :: Allows(overrides, o) ==>
        OptionExpandsTo(st, o, v, r.value.0, r.value.1, r.value.2)
      ensures ok && r.Ok? && old(overrides).Some? ==>
        SeesOption(st, old(overrides).value, Known(old(expandCache)), Known(expandCache), v, r.value.0)
      ensures old(overrides).Some? ==>
        var raw := RawFrom(FlagsOf(st, v), variant, old(overrides).value);
        CanExpandOption(st, ok, old(overrides), depth, v, raw) ==> r.Ok?
      ensures old(overrides).Some? && PlainOption(RawFrom(FlagsOf(st, v), variant, old(overrides).value)) ==>
        r.Ok? && expandCache == old(expandCache)
      decreases depth, 5, 1
    {
      var raw := RawValue(depth, f, variant, FlagsOf(st, v), st, ok);
      if raw.Err? {
        return Err(raw.error);
      }
      ghost var mid := expandCache;
      var expanded := ExpandOptionText(depth, v, raw.value, st, ok);
      if old(overrides).Some? {
        GrowsOn(old(expandCache), mid, expandCache);
      }
      if expanded.Err? {
        return Err(expanded.error);
      }
      return Ok((raw.value, expanded.value.0, expanded.value.1));
    }

    // The words of the active `:remove` operations, when there is a value to remove them from. What the
    // variant hands on is its own set, and the active texts of `v` are added to that.
    method GetWords(depth: nat, v: string, f: FlagDict, ghost variant: Entry, lender: Option<string>, present: bool,
                    ghost st: Store, ghost ok: bool)
      returns (r: Result<map<string, set<string>>, Problem>)
      requires Valid() && st == View() && FlagLists(f) <= objects + {null} && ViewFlags(f) == FlagsOf(st, v)
      requires ok ==> Right(st, overrides, expandCache)
      requires VariantFrom(st, overrides, expandCache, v, variant, lender)
      modifies this`overrides, this`inoverride, this`expandCache
      ensures Valid() && st == View() && ReadDone(st, ok, old(overrides), old(expandCache), FailureOf(r))
      ensures r.Ok? ==> inoverride == old(inoverride)
      ensures r.Ok? ==> forall w :: w in Gone(r.value) ==> IsWord(w)
      ensures !present ==> r == Ok(map[]) && expandCache == old(expandCache) && overrides == old(overrides)
      ensures r.Ok? && r.value != map[] ==> CanCarry(st, v)
      ensures ok && r.Ok? && present ==> forall o :: Allows(overrides, o) ==>
        WordsAre(st, o, variant.removes + ActiveTexts(FlagsOf(st, v).removes, o), r.value)
      ensures r.Ok? && present && old(overrides).Some? ==>
        && PlainWordsStay(RemovesOf(lender, expandCache) + ActiveTexts(FlagsOf(st, v).removes, old(overrides).value),
          r.value)
        && (lender.Some? ==> HasLent(st, old(overrides).value, v, lender.value, expandCache))
      ensures ok && r.Ok? && present && old(overrides).Some? ==>
        SeesTexts(st, old(overrides).value, Known(old(expandCache)) + {v}, Known(expandCache),
                  variant.removes + ActiveTexts(FlagsOf(st, v).removes, old(overrides).value))
      ensures old(overrides).Some? ==>
        var removes := variant.removes + ActiveTexts(FlagsOf(st, v).removes, old(overrides).value);
        CanExpandAll(st, ok, old(overrides), depth, removes) ==> r.Ok?
      ensures old(overrides).Some? ==>
        var active := ActiveTexts(FlagsOf(st, v).removes, old(overrides).value);
        PlainTexts(RemovesOf(lender, old(expandCache)) + active) ==>
          r.Ok? && (present ==> expandCache == SharedCache(old(expandCache), lender, v, active))
      decreases depth, 5, 0
    {
      hide View, Valid, RemovesAgree, CacheFits, Grows, Known, SeesTexts, HasLent, Carried, WordsAre, PlainWordsStay,
        Settles, VariantFrom, ActiveTexts, ThoroughTexts, RemovesOf, FlagLists, ViewFlags;
      GrowsByNothing(expandCache);
      if !present {
        return Ok(map[]);
      }
      var own := {};
      if f.removes != null {
        var problem;
        problem, own := OwnRemoves(depth, v, f, st, ok);
        if problem.Some? {
          return Err(problem.value);
        }
      } else {
        NoActiveTexts(v, f, st);
      }
      VariantStays(st, old(overrides), old(expandCache), overrides, expandCache, v, variant, lender);
      ghost var settled := expandCache;
      r := SplitShared(depth, v, own, variant, lender, st, ok);
      if old(overrides).Some? { GrowsOn(old(expandCache), settled, expandCache); }
    }

    // The own active texts go into the set that the variant hands on, and all of it is expanded.
    method SplitShared(depth: nat, v: string, own: set<string>, ghost variant: Entry, lender: Option<string>,
                       ghost st: Store, ghost ok: bool)
      returns (r: Result<map<string, set<string>>, Problem>)
      requires Valid() && st == View()
      requires ok ==> Right(st, overrides, expandCache)
      requires VariantFrom(st, overrides, expandCache, v, variant, lender)
      requires forall o :: Allows(overrides, o) ==> ActiveTexts(FlagsOf(st, v).removes, o) == own
      modifies this`overrides, this`inoverride, this`expandCache
      ensures Valid() && st == View() && ReadDone(st, ok, old(overrides), old(expandCache), FailureOf(r))
      ensures r.Ok? ==> inoverride == old(inoverride)
      ensures r.Ok? ==> forall w :: w in Gone(r.value) ==> IsWord(w)
      ensures r.Ok? && r.value != map[] ==> CanCarry(st, v)
      ensures ok && r.Ok? ==> forall o :: Allows(overrides, o) ==>
        WordsAre(st, o, variant.removes + ActiveTexts(FlagsOf(st, v).removes, o), r.value)
      ensures r.Ok? && old(overrides).Some? ==>
        && PlainWordsStay(RemovesOf(lender, expandCache) + ActiveTexts(FlagsOf(st, v).removes, old(overrides).value),
          r.value)
        && (lender.Some? ==> HasLent(st, old(overrides).value, v, lender.value, expandCache))
      ensures ok && r.Ok? && old(overrides).Some? ==>
        SeesTexts(st, old(overrides).value, Known(old(expandCache)) + {v}, Known(expandCache),
                  variant.removes + ActiveTexts(FlagsOf(st, v).removes, old(overrides).value))
      ensures old(overrides).Some? ==>
        var removes := variant.removes + ActiveTexts(FlagsOf(st, v).removes, old(overrides).value);
        CanExpandAll(st, ok, old(overrides), depth, removes) ==> r.Ok?
      ensures old(overrides).Some? ==>
        var removes := RemovesOf(lender, old(expandCache)) + ActiveTexts(FlagsOf(st, v).removes, old(overrides).value);
        PlainTexts(removes) ==>
          r.Ok? && expandCache == SharedCache(old(expandCache), lender, v,
            ActiveTexts(FlagsOf(st, v).removes, old(overrides).value))
      decreases depth, 4, 0
    {
      hide View, Valid, RemovesAgree, CacheFits, Grows, Known, SeesTexts, HasLent, Carried, WordsAre, PlainWordsStay,
        Settles, VariantFrom, ActiveTexts, ThoroughTexts;
      GrowsByNothing(expandCache);
      LenderIsChosen(st, overrides, expandCache, v, variant, lender);
      assert overrides.Some? ==> Allows(overrides, overrides.value);
      if lender.Some? {
        LendActive(v, lender.value, own, st, ok);
        VariantStays(st, overrides, old(expandCache), overrides, expandCache, v, variant, lender);
      }
      ghost var shared := expandCache;
      var removes := if lender.Some? then Carried(expandCache[lender.value]) else own;
      RemovesTogether(st, overrides, expandCache, v, variant, lender, own, removes, ok);
      assert removes == RemovesOf(lender, old(expandCache)) + own;
      r := SplitRemoves(depth, v, removes, lender, st, ok);
      if old(overrides).Some? {
        GrowsOn(old(expandCache), shared, expandCache);
        if ok && r.Ok? {
          SeesTextsFromMore(st, overrides.value, Known(shared), Known(old(expandCache)) + {v}, Known(expandCache),
            removes);
        }
      }
      if r.Ok? {
        PlainKeys(removes, r.value);
        VariantStays(st, old(overrides), shared, overrides, expandCache, v, variant, lender);
        RemovesTogether(st, overrides, expandCache, v, variant, lender, own, removes, false);
      }
    }

    // The active texts of the own `:remove` operations.
    method OwnRemoves(depth: nat, v: string, f: FlagDict, ghost st: Store, ghost ok: bool)
        returns (problem: Option<Problem>, own: set<string>)
      requires Valid() && st == View() && FlagLists(f) <= objects + {null} && ViewFlags(f) == FlagsOf(st, v)
        && f.removes != null
      requires ok ==> Right(st, overrides, expandCache)
      modifies this`overrides, this`inoverride, this`expandCache
      ensures Valid() && st == View() && ReadDone(st, ok, old(overrides), old(expandCache), problem)
      ensures problem.None? ==> inoverride == old(inoverride)
      ensures problem.None? ==> forall o :: Allows(overrides, o) ==> ActiveTexts(FlagsOf(st, v).removes, o) == own
      ensures old(overrides).Some? ==> problem.None? && expandCache == old(expandCache)
      decreases depth, 4, 1
    {
      hide View, Valid, RemovesAgree, CacheFits, Grows, Settles, FlagLists;
      assert FlagsOf(st, v).removes == f.removes.items;
      hide ViewFlags;
      own := {};
      problem := NeedOverrides(depth, st, ok);
      if problem.None? {
        var active := ActiveRemoves(f.removes.items);
        if active.Err? {
          return Some(active.error), {};
        }
        own := active.value;
      }
    }

    lemma NoActiveTexts(v: string, f: FlagDict, st: Store)
      requires ViewFlags(f) == FlagsOf(st, v) && f.removes == null
      ensures forall o :: ActiveTexts(FlagsOf(st, v).removes, o) == {}
    {}

    // `removes.add(r)`, where `removes` is the set of the parsed value of the variant `n`.
    method LendActive(v: string, n: string, texts: set<string>, ghost st: Store, ghost ok: bool)
      requires Valid()
      requires n in expandCache && expandCache[n].removes.Some? && overrides.Some?
      requires Chosen(RecordsOf(st, v), overrides.value) == Some(n)
        && texts == ActiveTexts(FlagsOf(st, v).removes, overrides.value)
      requires ok ==> Right(st, overrides, expandCache)
      modifies this`expandCache
      ensures Valid() && View() == old(View())
      ensures ok ==> Right(st, overrides, expandCache)
      ensures Grows(old(expandCache), expandCache) && HasLent(st, overrides.value, v, n, expandCache)
      ensures n in expandCache && EntryOf(expandCache[n]) == EntryOf(old(expandCache)[n])
      ensures Carried(expandCache[n]) == Carried(old(expandCache)[n]) + texts
      ensures expandCache == old(expandCache)[n := Lend(old(expandCache)[n], v, texts)]
      ensures Known(expandCache) <= Known(old(expandCache)) + {v}
    {
      hide View, RemovesAgree, CacheFits, Grows, Chosen, ActiveTexts;
      if ok {
        LendFits(st, overrides.value, expandCache, n, v, texts);
      }
      LendGrows(expandCache, n, v, texts);
      CarriedLent(expandCache[n], v, texts);
      expandCache := expandCache[n := Lend(expandCache[n], v, texts)];
    }

    method ActiveRemoves(ops: seq<Op>) returns (r: Result<set<string>, Problem>)
      ensures r.Ok? ==> forall o :: Allows(overrides, o) ==> ActiveTexts(ops, o) == r.value
      ensures r.Err? ==> r.error == NoOverrides && overrides.None?
    {
      var texts := {};
      for i := 0 to |ops|
        invariant forall o :: Allows(overrides, o) ==> ActiveTexts(ops[..i], o) == texts
      {
        assert ops[..i + 1] == ops[..i] + [ops[i]];
        if ops[i].cond != "" && overrides.None? {
          return Err(NoOverrides);
        }
        if ops[i].cond == "" || OpActive(ops[i], overrides.value) {
          texts := texts + {ops[i].text};
        }
      }
      assert ops[..|ops|] == ops;
      return Ok(texts);
    }

    // `expanded_removes`. The set must not change while the program goes through it.
    method SplitRemoves(depth: nat, v: string, removes: set<string>, lender: Option<string>, ghost st: Store,
                        ghost ok: bool)
      returns (r: Result<map<string, set<string>>, Problem>)
      requires Valid() && st == View()
      requires ok ==> Right(st, overrides, expandCache)
      requires lender.Some? ==>
        && overrides.Some? && Chosen(RecordsOf(st, v), overrides.value) == lender
        && HasLent(st, overrides.value, v, lender.value, expandCache)
        && lender.value in expandCache && removes == Carried(expandCache[lender.value])
      modifies this`overrides, this`inoverride, this`expandCache
      ensures Valid() && st == View() && ReadDone(st, ok, old(overrides), old(expandCache), FailureOf(r))
      ensures r.Ok? ==> inoverride == old(inoverride)
      ensures r.Ok? ==> forall w :: w in Gone(r.value) ==> IsWord(w)
      ensures r.Ok? ==> PlainWordsStay(removes, r.value)
      ensures r.Ok? && lender.Some? ==>
        && HasLent(st, old(overrides).value, v, lender.value, expandCache)
        && lender.value in expandCache && Carried(expandCache[lender.value]) == removes
      ensures ok && r.Ok? ==> forall o :: Allows(overrides, o) ==> WordsAre(st, o, removes, r.value)
      ensures ok && r.Ok? && old(overrides).Some? ==>
        SeesTexts(st, old(overrides).value, Known(old(expandCache)), Known(expandCache), removes)
      ensures CanExpandAll(st, ok, old(overrides), depth, removes) ==> r.Ok?
      ensures PlainTexts(removes) ==> r.Ok? && expandCache == old(expandCache)
      decreases depth, 3, 0
    {
      hide View, Valid, RemovesAgree, CacheFits, Grows, Known, SeesText, SeesTexts, HasLent, Chosen, Carried,
        WordsFit, WordsAre, PlainWordsStay, Settles, ExpandFits, ThoroughText, ThoroughTexts, Fields, FieldSet, HasRef,
        Fits, EntryOf, CarryFits, TextsFrom, ActiveTexts;
      ghost var able := CanExpandAll(st, ok, overrides, depth, removes);
      var todo, words := removes, map[];
      NoPlainWords();
      NoWordsFit(st, overrides);
      GrowsByNothing(expandCache);
      assert removes - todo == {};
      if overrides.Some? { SeesNoTexts(st, overrides.value, Known(expandCache)); }
      while todo != {}
        invariant Valid() && st == View() && inoverride == old(inoverride)
          && ReadDone(st, ok, old(overrides), old(expandCache), None)
        invariant todo <= removes && PlainWordsStay(removes - todo, words)
        invariant forall t, w :: t in words && w in words[t] ==> IsWord(w)
        invariant lender.Some? ==>
          && HasLent(st, old(overrides).value, v, lender.value, expandCache)
          && lender.value in expandCache && Carried(expandCache[lender.value]) == removes
        invariant PlainTexts(removes) ==> expandCache == old(expandCache)
        invariant ok ==> WordsFit(st, overrides, words)
        invariant ok && old(overrides).Some? ==>
          SeesTexts(st, old(overrides).value, Known(old(expandCache)), Known(expandCache), removes - todo)
      {
        var t :| t in todo;
        ghost var before, was := overrides, expandCache;
        if able { CanExpandOne(st, ok, overrides, depth, removes, t); }
        var expanded := ExpandRemove(depth, v, t, removes, lender, st, ok);
        if old(overrides).Some? { GrowsOn(old(expandCache), was, expandCache); }
        if expanded.Err? {
          return Err(expanded.error);
        }
        FieldSetIsWords(expanded.value.0);
        OneMorePlainWord(removes - todo, words, t, expanded.value.0);
        if ok {
          OneMoreWord(st, before, overrides, words, t, expanded.value.0, expanded.value.1);
          if old(overrides).Some? {
            SeesOneMore(st, overrides.value, Known(old(expandCache)), Known(was), Known(expandCache), removes - todo,
              t);
          }
        }
        words := words[t := FieldSet(expanded.value.0)];
        assert removes - todo + {t} == removes - (todo - {t});
        todo := todo - {t};
      }
      assert removes - todo == removes;
      PlainKeys(removes, words);
      if ok { AllWords(st, overrides, words); }
      return Ok(words);
    }

    // One text of the set that the loop walks over, which must not have grown meanwhile.
    method ExpandRemove(depth: nat, v: string, t: string, removes: set<string>, lender: Option<string>, ghost st: Store,
                        ghost ok: bool)
        returns (r: Result<(string, set<string>), Problem>)
      requires Valid() && st == View()
      requires ok ==> Right(st, overrides, expandCache)
      requires lender.Some? ==>
        && overrides.Some? && Chosen(RecordsOf(st, v), overrides.value) == lender
        && HasLent(st, overrides.value, v, lender.value, expandCache)
        && lender.value in expandCache && removes == Carried(expandCache[lender.value])
      modifies this`overrides, this`inoverride, this`expandCache
      ensures Valid() && st == View() && ReadDone(st, ok, old(overrides), old(expandCache), FailureOf(r))
      ensures r.Ok? ==> inoverride == old(inoverride)
      ensures r.Ok? && lender.Some? ==>
        && HasLent(st, old(overrides).value, v, lender.value, expandCache)
        && lender.value in expandCache && Carried(expandCache[lender.value]) == removes
      ensures !HasRef(t) ==> r == Ok((t, {})) && expandCache == old(expandCache)
      ensures ok && r.Ok? ==> ExpandFits(st, overrides, "", t, r.value.0, r.value.1)
      ensures ok && r.Ok? && old(overrides).Some? ==>
        SeesText(st, old(overrides).value, Known(old(expandCache)), Known(expandCache), "", t)
      ensures CanExpand(st, ok, old(overrides), depth, "", t) ==> r.Ok?
      decreases depth, 2, 1
    {
      hide View, Valid, RemovesAgree, CacheFits, Grows, Known, SeesText, HasLent, Chosen, Carried, Settles, ExpandFits;
      r := ExpandText(depth, "", t, st, ok);
      if r.Ok? && lender.Some? {
        LoanStays(st, old(overrides).value, v, lender.value, old(expandCache), expandCache, ok);
        if Carried(expandCache[lender.value]) != removes {
          return Err(SetChanged);
        }
      }
    }

    method ExpandOptionText(depth: nat, name: string, s: Option<string>, ghost st: Store, ghost ok: bool)
      returns (r: Result<(Option<string>, set<string>), Problem>)
      requires Valid() && st == View()
      requires ok ==> Right(st, overrides, expandCache)
      modifies this`overrides, this`inoverride, this`expandCache
      ensures Valid() && st == View() && ReadDone(st, ok, old(overrides), old(expandCache), FailureOf(r))
      ensures r.Ok? ==> inoverride == old(inoverride)
      ensures r.Ok? ==> (OrEmpty(s) == "" ==> OrEmpty(r.value.0) == "") && PlainStays(s, r.value.0, r.value.1)
      ensures ok && r.Ok? ==> forall o :: Allows(overrides, o) ==> OptionExpandsTo(st, o, name, s, r.value.0, r.value.1)
      ensures ok && r.Ok? && old(overrides).Some? ==>
        SeesOption(st, old(overrides).value, Known(old(expandCache)), Known(expandCache), name, s)
      ensures CanExpandOption(st, ok, old(overrides), depth, name, s) ==> r.Ok?
      ensures PlainOption(s) ==> r.Ok? && expandCache == old(expandCache)
      decreases depth, 3, 0
    {
      hide View, RemovesAgree, CacheFits, Grows, Settles, Known, SeesText, ThoroughText;
      GrowsByNothing(expandCache);
      if s.None? {
        return Ok((None, {}));
      }
      var t := ExpandText(depth, name, s.value, st, ok);
      if t.Err? {
        return Err(t.error);
      }
      return Ok((Some(t.value.0), t.value.1));
    }

    // `expandWithRefs`
    method ExpandText(depth: nat, name: string, s: string, ghost st: Store, ghost ok: bool)
        returns (r: Result<(string, set<string>), Problem>)
      requires Valid() && st == View()
      requires ok ==> Right(st, overrides, expandCache)
      modifies this`overrides, this`inoverride, this`expandCache
      ensures Valid() && st == View() && ReadDone(st, ok, old(overrides), old(expandCache), FailureOf(r))
      ensures r.Ok? ==> inoverride == old(inoverride)
      ensures !HasRef(s) ==> r == Ok((s, {})) && expandCache == old(expandCache)
      ensures ok && r.Ok? ==> ExpandFits(st, overrides, name, s, r.value.0, r.value.1)
      ensures r.Ok? ==> RefsIn(s) <= r.value.1
      ensures ok && r.Ok? && old(overrides).Some? ==>
        SeesText(st, old(overrides).value, Known(old(expandCache)), Known(expandCache), name, s)
      ensures CanExpand(st, ok, old(overrides), depth, name, s) ==> r.Ok?
      decreases depth, 2, 0
    {
      hide View, Valid, RemovesAgree, CacheFits, Grows, Known, SeesText, SeesSub, SeesSoFar, GoesOn, SubFits,
        ExpandFits, Settles, ThoroughText, ThoroughSub;
      GrowsByNothing(expandCache);
      var cur, refs := s, {};
      var rounds: nat := depth;
      ghost var able := CanExpand(st, ok, overrides, depth, name, s);
      if ok {
        GoesOnFromStart(st, overrides, name, s);
        if overrides.Some? { SeesFromStart(st, overrides.value, Known(expandCache), name, s); }
      }
      while HasRef(cur)
        invariant Valid() && st == View() && inoverride == old(inoverride)
          && ReadDone(st, ok, old(overrides), old(expandCache), None)
        invariant ok ==> Right(st, overrides, expandCache)
        invariant !HasRef(s) ==> cur == s && refs == {} && expandCache == old(expandCache)
        invariant cur == s || RefsIn(s) <= refs
        invariant able ==> rounds <= depth && CanExpand(st, ok, overrides, rounds, name, cur)
        invariant ok ==> GoesOn(st, overrides, name, s, cur, refs)
        invariant ok && old(overrides).Some? ==>
          SeesSoFar(st, old(overrides).value, Known(old(expandCache)), Known(expandCache), name, s, cur)
        decreases rounds
      {
        if able { CanExpandOnce(st, ok, overrides, rounds, depth, name, cur); }
        if rounds == 0 {
          return Err(TooDeep);
        }
        ghost var before, was := overrides, expandCache;
        var sub := SubRefs(depth, name, cur, st, ok);
        if old(overrides).Some? { GrowsOn(old(expandCache), was, expandCache); }
        if sub.Err? {
          return Err(sub.error);
        }
        var (t, more) := sub.value;
        if ok && old(overrides).Some? {
          SeesInLoop(st, old(overrides).value, Known(old(expandCache)), Known(was), Known(expandCache), name, s, cur,
            t, more);
        }
        if t == cur {
          if ok { GoesOnToStable(st, before, overrides, name, s, cur, refs, more); }
          return Ok((cur, refs + more));
        }
        if ok { GoesOnOnce(st, before, overrides, name, s, cur, refs, t, more); }
        cur, refs, rounds := t, refs + more, rounds - 1;
      }
      NoRefsIn(cur);
      if ok {
        GoesOnToPlain(st, overrides, name, s, cur, refs);
        if old(overrides).Some? {
          SeesToPlain(st, old(overrides).value, Known(old(expandCache)), Known(expandCache), name, s, cur);
        }
      }
      return Ok((cur, refs));
    }

    // `__expand_var_regexp__.sub(varparse.var_sub, s)`
    method SubRefs(depth: nat, name: string, s: string, ghost st: Store, ghost ok: bool)
        returns (r: Result<(string, set<string>), Problem>)
      requires Valid() && st == View()
      requires ok ==> Right(st, overrides, expandCache)
      modifies this`overrides, this`inoverride, this`expandCache
      ensures Valid() && st == View() && ReadDone(st, ok, old(overrides), old(expandCache), FailureOf(r))
      ensures r.Ok? ==> inoverride == old(inoverride)
      ensures ok && r.Ok? ==> SubFits(st, overrides, name, s, r.value.0, r.value.1)
      ensures r.Ok? ==> r.value.1 == RefsIn(s)
      ensures ok && r.Ok? && old(overrides).Some? ==>
        SeesSub(st, old(overrides).value, Known(old(expandCache)), Known(expandCache), name, s)
      ensures CanSub(st, ok, old(overrides), depth, name, s) ==> r.Ok?
      decreases depth, 1, |s|
    {
      hide View, Valid, RemovesAgree, CacheFits, Grows, Known, SeesSub, Sees, Settles, Thorough, ThoroughSub, RefAt;
      GrowsByNothing(expandCache);
      if s == "" {
        forall o: seq<string> { SubNothing(st, o, name); }
        if overrides.Some? { SeesNothing(st, overrides.value, Known(expandCache), name); }
        return Ok(("", {}));
      }
      if CanSub(st, ok, overrides, depth, name, s) { CanSubParts(st, ok, overrides, depth, name, s); }
      var key := RefAt(s);
      if key.None? {
        r := SubRefs(depth, name, s[1..], st, ok);
        if r.Ok? {
          if ok {
            SubFitsChar(st, overrides, name, s, r.value.0, r.value.1);
            if old(overrides).Some? {
              SeesChar(st, old(overrides).value, Known(old(expandCache)), Known(expandCache), name, s);
            }
          }
          r := Ok((s[..1] + r.value.0, r.value.1));
        }
        return;
      }
      if key.value == name {
        return Err(SelfReference);
      }
      var e := GetEntry(depth, key.value, true, st, ok);
      if e.Err? {
        return Err(e.error);
      }
      ghost var before, mid := overrides, expandCache;
      r := SubRefs(depth, name, s[|key.value| + 3..], st, ok);
      if old(overrides).Some? { GrowsOn(old(expandCache), mid, expandCache); }
      if r.Ok? {
        if ok {
          SubFitsRef(st, before, overrides, name, s, key.value, EntryOf(e.value), r.value.0, r.value.1);
          if old(overrides).Some? {
            SeesRest(st, old(overrides).value, Known(old(expandCache)), Known(mid), Known(expandCache), name, s,
              key.value);
          }
        }
        r := Ok((Substituted(s, key.value, EntryOf(e.value)) + r.value.0, {key.value} + r.value.1));
      }
    }

    // The conditional variant that takes the place of `v`, if there is one, and whether its parsed value
    // has a set of removes to share.
    method GetVariant(depth: nat, v: string, ghost st: Store, ghost ok: bool)
        returns (r: Result<(Entry, Option<string>), Problem>)
      requires Valid() && st == View()
      requires ok ==> Right(st, overrides, expandCache)
      modifies this`overrides, this`inoverride, this`expandCache
      ensures Valid() && st == View() && ReadDone(st, ok, old(overrides), old(expandCache), FailureOf(r))
      ensures r.Ok? ==> inoverride == old(inoverride)
      ensures ok && r.Ok? ==> forall o :: Allows(overrides, o) ==> VariantIs(st, o, v, r.value.0)
      ensures r.Ok? ==> VariantFrom(st, overrides, expandCache, v, r.value.0, r.value.1)
      ensures ok && r.Ok? && old(overrides).Some? ==>
        SeesVariant(st, old(overrides).value, Known(old(expandCache)), Known(expandCache), v)
      ensures CanFindVariant(st, ok, old(overrides), depth, v) ==> r.Ok?
      ensures VariantAtHand(st, old(overrides), old(expandCache), v) ==> r.Ok? && expandCache == old(expandCache)
      decreases depth, 5, 0
    {
      hide View, RemovesAgree, CacheFits, Grows, Known, Sees, Settles, Thorough, Chosen, EntryOf, Reads, RawFrom,
        Carried, CarryFits, PlainStep, PlainEffect, ReadsThrough, FlagsOf;
      GrowsByNothing(expandCache);
      RecordedKeys();
      if v !in overridedata {
        forall o: seq<string> {
          NothingToChoose(o);
        }
        return Ok((NOTHING, None));
      }
      var problem := NeedOverrides(depth, st, ok);
      if problem.Some? {
        return Err(problem.value);
      }
      if overrides.None? {
        return Err(NoOverrides);
      }
      var chosen := Choose(overridedata[v].items, overrides.value);
      if chosen.None? {
        return Ok((NOTHING, None));
      }
      ghost var mid := expandCache;
      var e := GetEntry(depth, chosen.value, false, st, ok);
      if e.Err? {
        return Err(e.error);
      }
      return Ok((EntryOf(e.value), if e.value.removes.Some? then chosen else None));
    }

    // The appends and prepends on top of the variant, the content or the weak default.
    method RawValue(depth: nat, f: FlagDict, variant: Option<string>, ghost flags: Flags, ghost st: Store,
                    ghost ok: bool) returns (r: Result<Option<string>, Problem>)
      requires Valid() && st == View() && FlagLists(f) <= objects + {null} && ViewFlags(f) == flags
      requires ok ==> Right(st, overrides, expandCache)
      modifies this`overrides, this`inoverride, this`expandCache
      ensures Valid() && st == View() && ReadDone(st, ok, old(overrides), old(expandCache), FailureOf(r))
      ensures r.Ok? ==> inoverride == old(inoverride)
      ensures r.Ok? ==> forall o :: Allows(overrides, o) ==> RawFrom(flags, variant, o) == r.value
      ensures old(overrides).Some? ==> r.Ok? && expandCache == old(expandCache)
      decreases depth, 5, 0
    {
      hide View, Valid, RemovesAgree, CacheFits, Grows, Settles, FlagLists, ItemsOf, AppendAll, PrependAll;
      assert flags.appends == ItemsOf(f.appends) && flags.prepends == ItemsOf(f.prepends) && flags.content == f.content
        && flags.weak == f.weak;
      hide ViewFlags;
      var start := if variant.Some? then variant else if f.content.Some? then f.content else f.weak;
      r := WithAppends(depth, start, f.appends, st, ok);
      if r.Err? {
        return;
      }
      ghost var (mid, appended) := (expandCache, r.value);
      r := WithPrepends(depth, r.value, f.prepends, st, ok);
      if old(overrides).Some? {
        GrowsOn(old(expandCache), mid, expandCache);
      }
      if r.Ok? {
        forall o | Allows(overrides, o) ensures RawFrom(flags, variant, o) == r.value {
          assert AppendAll(start, flags.appends, o) == appended;
        }
      }
    }

    method WithAppends(depth: nat, start: Option<string>, l: PyList?<Op>, ghost st: Store, ghost ok: bool)
        returns (r: Result<Option<string>, Problem>)
      requires Valid() && st == View()
      requires ok ==> Right(st, overrides, expandCache)
      modifies this`overrides, this`inoverride, this`expandCache
      ensures Valid() && st == View() && ReadDone(st, ok, old(overrides), old(expandCache), FailureOf(r))
      ensures r.Ok? ==> inoverride == old(inoverride)
      ensures r.Ok? ==> forall o :: Allows(overrides, o) ==> AppendAll(start, ItemsOf(l), o) == r.value
      ensures old(overrides).Some? ==> r.Ok? && expandCache == old(expandCache)
      decreases depth, 4, 1
    {
      hide View, Valid, RemovesAgree, CacheFits, Grows, Settles;
      GrowsByNothing(expandCache);
      if l == null {
        return Ok(start);
      }
      var problem := NeedOverrides(depth, st, ok);
      if problem.Some? {
        return Err(problem.value);
      }
      r := AppendActive(start, l.items);
    }

    method WithPrepends(depth: nat, start: Option<string>, l: PyList?<Op>, ghost st: Store, ghost ok: bool)
        returns (r: Result<Option<string>, Problem>)
      requires Valid() && st == View()
      requires ok ==> Right(st, overrides, expandCache)
      modifies this`overrides, this`inoverride, this`expandCache
      ensures Valid() && st == View() && ReadDone(st, ok, old(overrides), old(expandCache), FailureOf(r))
      ensures r.Ok? ==> inoverride == old(inoverride)
      ensures r.Ok? ==> forall o :: Allows(overrides, o) ==> PrependAll(start, ItemsOf(l), o) == r.value
      ensures old(overrides).Some? ==> r.Ok? && expandCache == old(expandCache)
      decreases depth, 4, 1
    {
      hide View, Valid, RemovesAgree, CacheFits, Grows, Settles;
      GrowsByNothing(expandCache);
      if l == null {
        return Ok(start);
      }
      var problem := NeedOverrides(depth, st, ok);
      if problem.Some? {
        return Err(problem.value);
      }
      r := PrependActive(start, l.items);
    }

    method AppendActive(start: Option<string>, ops: seq<Op>) returns (r: Result<Option<string>, Problem>)
      ensures r.Ok? ==> forall o :: Allows(overrides, o) ==> AppendAll(start, ops, o) == r.value
      ensures r.Err? ==> r.error == NoOverrides && overrides.None?
    {
      var value := start;
      for i := 0 to |ops|
        invariant forall o :: Allows(overrides, o) ==> AppendAll(value, ops[i..], o) == AppendAll(start, ops, o)
      {
        assert ops[i..][0] == ops[i] && ops[i..][1..] == ops[i + 1..];
        if ops[i].cond != "" && overrides.None? {
          return Err(NoOverrides);
        }
        if ops[i].cond == "" || OpActive(ops[i], overrides.value) {
          value := Some(OrEmpty(value) + ops[i].text);
        }
      }
      assert ops[|ops|..] == [];
      return Ok(value);
    }

    method PrependActive(start: Option<string>, ops: seq<Op>) returns (r: Result<Option<string>, Problem>)
      ensures r.Ok? ==> forall o :: Allows(overrides, o) ==> PrependAll(start, ops, o) == r.value
      ensures r.Err? ==> r.error == NoOverrides && overrides.None?
    {
      var value := start;
      for i := 0 to |ops|
        invariant forall o :: Allows(overrides, o) ==> PrependAll(value, ops[i..], o) == PrependAll(start, ops, o)
      {
        assert ops[i..][0] == ops[i] && ops[i..][1..] == ops[i + 1..];
        if ops[i].cond != "" && overrides.None? {
          return Err(NoOverrides);
        }
        if ops[i].cond == "" || OpActive(ops[i], overrides.value) {
          value := Some(ops[i].text + OrEmpty(value));
        }
      }
      assert ops[|ops|..] == [];
      return Ok(value);
    }

    // ----- writing: the heap steps -----
    //
    // A write changes this object and its own dictionary, and nothing else: the dictionaries of the
    // ancestors and every list that exists stay as they are.

    method WriteFlags(v: string, f: FlagDict)
      requires Valid() && FlagLists(f) <= objects + {null}
      modifies dict
      ensures Valid() && View() == WithFlags(old(View()), v, old(ViewFlags(f)))
      ensures v in dict.vars && dict.vars[v] == f && old(dict.vars.Keys) <= dict.vars.Keys
    {
      hide ViewVars, ViewFlags;
      ghost var all := dict.All();
      ghost var before := ViewVars(all);
      AllListsPut(all, v, f);
      dict.Put(v, f);
      assert ViewVars(all) == before;
      ViewVarsPut(all, v, f);
    }

    // A copy of the list `from`, with more entries.
    method CopyOps(from: PyList?<Op>, more: seq<Op>) returns (l: PyList<Op>)
      requires Valid()
      modifies this`objects
      ensures fresh(l) && l.items == old(ItemsOf(from)) + more && objects == old(objects) + {l}
      ensures Valid() && View() == old(View())
    {
      l := new PyList(ItemsOf(from));
      l.Extend(more);
      Adopt(l);
    }

    // A new list may be put into this store.
    ghost method Adopt(l: PyList<Op>)
      requires Valid() && l !in objects
      modifies this`objects
      ensures objects == old(objects) + {l} && Valid() && View() == old(View())
    {
      ghost var vars := View().vars;
      objects := objects + {l};
      assert View().vars == vars;
    }

    // `_makeShadowCopy`: the copy holds the same lists as the ancestor's flags.
    method MakeShadowCopy(v: string)
      requires Valid()
      modifies dict, this`expandCache
      ensures Valid() && v in dict.vars
      ensures View() == WithFlags(old(View()), v, FlagsOf(old(View()), v))
      ensures expandCache == old(expandCache) || expandCache == map[]
      ensures FlagLists(dict.vars[v]) <= objects + {null} && ViewFlags(dict.vars[v]) == FlagsOf(old(View()), v)
    {
      hide View, ViewFlags;
      if v in dict.vars {
        LocalFlags(v);
        SameFlags(View(), v);
        return;
      }
      var local := Lookup(v);
      if local == NO_FLAG_DICT {
        expandCache := map[];
      }
      WriteFlags(v, local);
    }

    lemma LocalFlags(v: string)
      requires Valid() && v in dict.vars
      ensures v in View().vars
      ensures FlagLists(dict.vars[v]) <= objects + {null} && ViewFlags(dict.vars[v]) == FlagsOf(View(), v)
    {
      assert dict.All()[v] == dict.vars[v];
      assert FlagLists(dict.vars[v]) <= AllLists(dict.All());
    }

    // A fresh list for `short`. The list that was there, which a parent may hold too, is left alone.
    method PutRecords(short: string, l: PyList<Record>)
      requires Valid() && l !in objects
      modifies this`overridedata, this`objects
      ensures Valid() && objects == old(objects) + {l} && overridedata == old(overridedata)[short := l]
      ensures View() == old(View()).(recorded := old(View()).recorded[short := l.items])
    {
      ghost var vars := View().vars;
      overridedata := overridedata[short := l];
      objects := objects + {l};
      assert View().vars == vars;
    }

    // `if shortvar not in self.overridedata: self.overridedata[shortvar] = []`
    method EnsureRecords(short: string)
      requires Valid()
      modifies this`overridedata, this`objects
      ensures Valid() && short in overridedata && fresh(objects - old(objects))
      ensures View() == old(View()).(recorded := old(View()).recorded[short := RecordsOf(old(View()), short)])
    {
      ghost var st := View();
      if short !in overridedata {
        var empty := new PyList([]);
        PutRecords(short, empty);
      } else {
        assert st.recorded == st.recorded[short := RecordsOf(st, short)];
      }
    }

    // Force CoW by recreating the list first
    method AppendRecord(short: string, r: Record)
      requires Valid() && short in overridedata
      modifies this`overridedata, this`objects
      ensures Valid() && fresh(objects - old(objects))
      ensures View() == old(View()).(recorded := old(View()).recorded[short := old(View()).recorded[short] + [r]])
    {
      var l := new PyList(overridedata[short].items);
      l.Append(r);
      PutRecords(short, l);
    }

    method AddRecordTo(short: string, r: Record)
      requires Valid()
      modifies this`overridedata, this`objects
      ensures Valid() && fresh(objects - old(objects))
      ensures View() == old(View()).(recorded := AddRecord(old(View()).recorded, short, r))
    {
      hide FlagLists;
      ghost var st := View();
      EnsureRecords(short);
      ghost var now := st.recorded[short := RecordsOf(st, short)];
      assert View() == st.(recorded := now) && overridedata[short].items == now[short];
      if r !in overridedata[short].items {
        AppendRecord(short, r);
        assert now[short := now[short] + [r]] == AddRecord(st.recorded, short, r);
      }
    }

    method RemoveRecordFrom(short: string, r: Record)
      requires Valid()
      modifies this`overridedata, this`objects
      ensures Valid() && fresh(objects - old(objects))
      ensures View() == old(View()).(recorded := DropRecord(old(View()).recorded, short, r))
    {
      if short in overridedata {
        // Force CoW by recreating the list first
        var l := new PyList(overridedata[short].items);
        RemoveFrom(l, r);
        PutRecords(short, l);
      }
    }

    // ----- writing: the operations -----

    // `_setvar_update_overrides`
    method UpdateOverrides(v: string)
      requires Valid()
      modifies this`overridedata, this`objects
      ensures Valid() && fresh(objects - old(objects))
      ensures View() == old(View()).(recorded := RecordName(old(View()).recorded, v))
    {
      hide View, Valid, LastColon, AddRecord;
      ghost var st, rec := View(), View().recorded;
      var p := LastColon(v);
      var override := if p.Some? then v[p.value + 1..] else v;
      var short := if p.Some? then v[..p.value] else if v == "" then "" else v[..|v| - 1];
      while IsOverride(override)
        invariant Valid() && fresh(objects - old(objects)) && View() == st.(recorded := rec)
        invariant short <= v && RecordAt(rec, v, short, override) == RecordName(st.recorded, v)
        decreases |short|, |override|
      {
        ghost var r := Record(v, override);
        RecordAtOnce(rec, v, short, override);
        AddRecordTo(short, Record(v, override));
        rec := AddRecord(rec, short, r);
        var step := ShorterName(v, short);
        override, short := step.0, step.1;
      }
    }

    // `delVar`
    method DelVar(v: string)
      requires Valid()
      modifies dict, this`overridedata, this`objects, this`expandCache
      ensures Valid() && fresh(objects - old(objects))
      ensures View() == AfterDel(old(View()), v) && expandCache == map[]
      ensures old(dict.vars.Keys) <= dict.vars.Keys
    {
      hide View, DropRecord;
      expandCache := map[];
      WriteFlags(v, NO_FLAG_DICT);
      DropRecords(v);
      ghost var st, rec := View(), View().recorded;
      var p := LastColon(v);
      if p.Some? {
        var override, short := v[p.value + 1..], v[..p.value];
        while IsOverride(override)
          invariant old(dict.vars.Keys) <= dict.vars.Keys
          invariant Valid() && fresh(objects - old(objects)) && expandCache == map[] && View() == st.(recorded := rec)
          invariant short <= v && UnrecordAt(rec, v, short, override) == UnrecordName(st.recorded, v)
          decreases |short|, |override|
        {
          ghost var r := Record(v, override);
          UnrecordAtOnce(rec, v, short, override);
          RemoveRecordFrom(short, Record(v, override));
          rec := DropRecord(rec, short, r);
          var step := ShorterName(v, short);
          override, short := step.0, step.1;
        }
      }
    }

    method DropRecords(v: string)
      requires Valid()
      modifies this`overridedata
      ensures Valid() && View() == old(View()).(recorded := old(View()).recorded - {v})
    {
      ghost var vars := View().vars;
      overridedata := overridedata - {v};
      assert View().vars == vars;
    }

    // The operator branch of `setVar`, up to the overrides: a copy of the list gets one more entry.
    method AddOp(base: string, keyword: Keyword, op: Op)
      requires Valid()
      modifies dict, this`objects, this`expandCache
      ensures Valid() && fresh(objects - old(objects)) && expandCache == map[]
      ensures View() == WithFlags(old(View()), base, WithOp(FlagsOf(old(View()), base), keyword, op))
    {
      hide View;
      ghost var st := View();
      var f := Lookup(base);
      var l := CopyOps(OpsOf(f, keyword), [op]);
      expandCache := map[];
      MakeShadowCopy(base);
      var g := dict.vars[base];
      OpsOfView(f, keyword);
      OpsOfView(g, keyword);
      ghost var after := WithOp(FlagsOf(st, base), keyword, op);
      OverwriteFlags(st, base, FlagsOf(st, base), after);
      assert ViewFlags(WithOps(g, keyword, l)) == after;
      WriteFlags(base, WithOps(g, keyword, l));
    }

    // `_setvar_update_overridevars`: the variables that the value refers to, and those that their
    // expanded values still refer to, are watched; then the overrides have to settle again. With a right
    // cache these are exactly the variables that come to be watched.
    method UpdateOverrideVars(depth: nat, v: string, value: string) returns (problem: Option<Problem>)
      requires Valid()
      modifies this`overrides, this`inoverride, this`expandCache, this`overridevars
      ensures Valid() && View() == old(View()) && old(overridevars) <= overridevars
      ensures problem.None? ==> overrides == None && expandCache == map[] && inoverride == old(inoverride)
      ensures problem.None? ==> RefsIn(value) <= overridevars
      ensures problem.None? && old(Right(View(), overrides, expandCache)) && old(overrides).Some? ==>
        Watches(old(View()), old(overrides).value, v, value, old(overridevars), overridevars)
    {
      hide View, CacheFits, RemovesAgree, RefersTo, ValueRefersTo, Grows, Settles, ExpandFits, WatchesSoFar, Watches,
        CanExpand, SeesText, Known, RefsIn;
      ghost var st, ok, o := View(), Right(View(), overrides, expandCache) && overrides.Some?, overrides;
      var r := ExpandText(depth, v, value, st, ok);
      if r.Err? {
        return Some(r.error);
      }
      var newnames := r.value.1;
      ghost var named: set<string> := {};
      if ok { TextRefers(st, o.value, v, value, r.value.0, newnames, overridevars); }
      var rounds: nat := depth;
      while !(newnames <= overridevars)
        invariant Valid() && st == View() && old(overridevars) <= overridevars && inoverride == old(inoverride)
        invariant RefsIn(value) <= newnames + overridevars
        invariant ok ==> overrides == o && Right(st, overrides, expandCache)
        invariant ok ==> WatchesSoFar(st, o.value, v, value, old(overridevars), overridevars, named, newnames)
        decreases rounds
      {
        if rounds == 0 {
          return Some(TooDeep);
        }
        ghost var was := overridevars;
        overridevars := overridevars + newnames;
        var found := ReferencesOf(depth, newnames, st, ok);
        if found.Err? {
          return Some(found.error);
        }
        if ok { WatchesMore(st, o.value, v, value, old(overridevars), was, named, newnames, found.value); }
        named := named + newnames;
        newnames, rounds := found.value, rounds - 1;
      }
      if ok { WatchesAll(st, o.value, v, value, old(overridevars), overridevars, named, newnames); }
      overrides, expandCache := None, map[];
      return None;
    }

    // What the expanded values of the names still refer to.
    method ReferencesOf(depth: nat, names: set<string>, ghost st: Store, ghost ok: bool)
        returns (r: Result<set<string>, Problem>)
      requires Valid() && st == View()
      requires ok ==> overrides.Some? && Right(st, overrides, expandCache)
      modifies this`overrides, this`inoverride, this`expandCache
      ensures Valid() && st == View() && overridevars == old(overridevars)
      ensures r.Ok? ==> inoverride == old(inoverride)
      ensures ok && r.Ok? ==> overrides == old(overrides) && Right(st, overrides, expandCache)
      ensures ok && r.Ok? ==>
        forall x :: x in r.value <==> exists y :: y in names && ValueRefersTo(st, overrides.value, y, x)
    {
      hide View, Valid, CacheFits, RemovesAgree, ValueRefersTo, Grows, Settles, ExpandFits, Fits;
      var found, todo := {}, names;
      while todo != {}
        invariant Valid() && st == View() && todo <= names && inoverride == old(inoverride)
        invariant ok ==> overrides == old(overrides) && Right(st, overrides, expandCache)
        invariant ok ==>
          forall x :: x in found <==> exists y :: y in names - todo && ValueRefersTo(st, overrides.value, y, x)
      {
        var name :| name in todo;
        ghost var seen := names - todo;
        todo := todo - {name};
        assert names - todo == seen + {name};
        var refs := ValueReferences(depth, name, st, ok);
        if refs.Err? {
          return Err(refs.error);
        }
        found := found + refs.value;
      }
      assert names - todo == names;
      return Ok(found);
    }

    method ValueReferences(depth: nat, name: string, ghost st: Store, ghost ok: bool)
        returns (r: Result<set<string>, Problem>)
      requires Valid() && st == View()
      requires ok ==> overrides.Some? && Right(st, overrides, expandCache)
      modifies this`overrides, this`inoverride, this`expandCache
      ensures Valid() && st == View()
      ensures r.Ok? ==> inoverride == old(inoverride)
      ensures ok && r.Ok? ==> overrides == old(overrides) && Right(st, overrides, expandCache)
      ensures ok && r.Ok? ==> forall x :: x in r.value <==> ValueRefersTo(st, overrides.value, name, x)
    {
      hide View, Valid, CacheFits, RemovesAgree, ValueRefersTo, Grows, Settles, PlainStep, PlainEffect, ReadsThrough;
      var e := GetEntry(depth, name, true, st, ok);
      if e.Err? {
        return Err(e.error);
      }
      var value := e.value.value;
      if value.None? {
        if ok {
          assert Allows(overrides, overrides.value);
          ValueRefersToThose(st, overrides.value, name, EntryOf(e.value), "", {});
        }
        return Ok({});
      }
      var t := ExpandText(depth, name, value.value, st, ok);
      if t.Err? {
        return Err(t.error);
      }
      if ok {
        assert Allows(overrides, overrides.value);
        ValueRefersToThose(st, overrides.value, name, EntryOf(e.value), t.value.0, t.value.1);
      }
      return Ok(t.value.1);
    }

    lemma RecordedKeys()
      requires Valid()
      ensures View().recorded.Keys == overridedata.Keys
      ensures forall k :: k in overridedata ==> View().recorded[k] == overridedata[k].items
    {}

    // What a plain `setVar` clears first: the operators of `v`.
    method ClearOps(v: string)
      requires Valid() && v in dict.vars
      modifies dict
      ensures Valid() && v in dict.vars && View() == WithoutOpsOn(old(View()), v)
    {
      LocalFlags(v);
      WriteFlags(v, dict.vars[v].(appends := null, prepends := null, removes := null));
    }

    // And then its variants that are active. The overrides may have to settle for that; deleting a variant
    // empties the cache again.
    method ClearVariants(depth: nat, v: string) returns (problem: Option<Problem>, used: seq<string>)
      requires Valid() && v in overridedata && expandCache == map[]
      modifies dict, this`overridedata, this`objects, this`expandCache, this`overrides, this`inoverride
      ensures Valid() && fresh(objects - old(objects))
      ensures problem.None? ==>
        var rest := AfterDels(old(View()), ActiveNames(RecordsOf(old(View()), v), used));
        View() == rest.(recorded := rest.recorded - {v})
      ensures problem.None? ==> Cleaned(old(View()), v, old(overrides), used)
      ensures problem.None? ==> inoverride == old(inoverride)
      ensures old(SettlesFor(depth, View())) ==> problem.None?
      ensures old(dict.vars.Keys) <= dict.vars.Keys
    {
      hide View, Valid, AfterDels, ActiveNames, SettledFirst, Cleaned, SettlesFor;
      ghost var st, before := View(), overrides;
      problem, used := SettleFirst(depth, st);
      if problem.Some? {
        return problem, [];
      }
      RecordedKeys();
      var names := FindActive(overridedata[v].items, used);
      ghost var cache := expandCache;
      DelVars(names);
      DropRecords(v);
      CleanedByDeleting(st, v, before, used, cache);
    }

    // The overrides that decide about the variants.
    method SettleFirst(depth: nat, ghost st: Store) returns (problem: Option<Problem>, used: seq<string>)
      requires Valid() && st == View() && expandCache == map[]
      modifies this`overrides, this`inoverride, this`expandCache
      ensures Valid() && st == View()
      ensures problem.None? ==> overrides == Some(used) && SettledFirst(st, old(overrides), used, expandCache)
      ensures problem.None? ==> inoverride == old(inoverride)
      ensures old(SettlesFor(depth, st)) ==> problem.None?
    {
      hide View, Valid, Settles, CacheFits, Grows, Known, Sees, RemovesAgree, CanSettle;
      EmptyFits(st, overrides);
      problem := NeedOverrides(depth, st, RemovesAgree(st));
      if problem.Some? {
        return problem, [];
      }
      if overrides.None? {
        return Some(NoOverrides), [];
      }
      return None, overrides.value;
    }

    lemma CleanedByDeleting(st: Store, v: string, before: Option<seq<string>>, used: seq<string>, cache: Cache)
      requires overrides == Some(used) && SettledFirst(st, before, used, cache)
      requires expandCache == if ActiveNames(RecordsOf(st, v), used) == [] then cache else map[]
      ensures Cleaned(st, v, before, used)
    {
      hide Settles, CacheFits, RemovesAgree, ActiveNames;
      EmptyFits(st, overrides);
    }

    // Overrides are in force, or they settle.
    ghost predicate SettlesFor(depth: nat, st: Store)
      reads this`overrides, this`inoverride
    {
      overrides.Some? || (!inoverride && CanSettle(st, RemovesAgree(st), depth))
    }

    // What clearing the variants of `v` leaves of cache and overrides.
    ghost predicate Cleaned(st: Store, v: string, before: Option<seq<string>>, used: seq<string>)
      reads this`overrides, this`expandCache
    {
      && overrides == Some(used)
      && (before.Some? ==> before == overrides && expandCache == map[])
      && (before.None? ==> if ActiveNames(RecordsOf(st, v), used) == [] then "OVERRIDES" in expandCache
        else expandCache == map[])
      && (before.None? && RemovesAgree(st) ==> SettledInto(st, used, expandCache))
    }

    method FindActive(records: seq<Record>, o: seq<string>) returns (names: seq<string>)
      ensures names == ActiveNames(records, o)
    {
      names := [];
      for i := 0 to |records|
        invariant names + ActiveNames(records[i..], o) == ActiveNames(records, o)
      {
        assert records[i..][0] == records[i] && records[i..][1..] == records[i + 1..];
        if Applies(records[i].cond, o) {
          names := names + [records[i].name];
        }
      }
      assert records[|records|..] == [];
    }

    method DelVars(names: seq<string>)
      requires Valid()
      modifies dict, this`overridedata, this`objects, this`expandCache
      ensures Valid() && fresh(objects - old(objects))
      ensures View() == AfterDels(old(View()), names)
      ensures if names == [] then expandCache == old(expandCache) else expandCache == map[]
      ensures old(dict.vars.Keys) <= dict.vars.Keys
    {
      hide View;
      ghost var st := View();
      for i := 0 to |names|
        invariant Valid() && fresh(objects - old(objects)) && old(dict.vars.Keys) <= dict.vars.Keys
        invariant AfterDels(View(), names[i..]) == AfterDels(st, names)
        invariant if i == 0 then expandCache == old(expandCache) else expandCache == map[]
      {
        assert names[i..][0] == names[i] && names[i..][1..] == names[i + 1..];
        DelVar(names[i]);
      }
      assert names[|names|..] == [];
    }

    // `setVar`
    method SetVar(depth: nat, v: string, value: string, parsing: bool)
        returns (problem: Option<Problem>, ghost used: seq<string>)
      requires Valid()
      modifies this, dict
      ensures Valid() && dict == old(dict) && fresh(objects - old(objects)) && old(overridevars) <= overridevars
      ensures HasOldSyntax(v) ==> problem == Some(OldSyntax) && View() == old(View())
      ensures problem.None? ==> View() == AfterSetVar(old(View()), v, value, parsing, used)
      ensures problem.None? && ParseName(v).None? && !parsing && v in old(overridedata) ==>
                IsUsed(old(View()), v, old(overrides), used)
      ensures problem.None? && old(Stale(v, parsing)) ==> Cleaned(WithoutOpsOn(old(View()), v), v, old(overrides), used)
      ensures problem.None? && !old(Stale(v, parsing)) ==> expandCache == map[]
      ensures problem.None? && old(Watched(v)) ==> overrides == None && RefsIn(value) <= overridevars
      ensures problem.None? && !old(Watched(v)) && !old(Stale(v, parsing)) ==> overrides == old(overrides)
      ensures !old(Watched(v)) ==> overridevars == old(overridevars)
      ensures problem.None? ==> inoverride == old(inoverride)
      ensures old(GoesThrough(depth, v, parsing)) ==> problem.None?
    {
      hide View, Cleaned, AfterSet, AfterOp, WithoutOpsOn, RemovesAgree, SettlesFor, CanSettle, IsUsed;
      RecordedKeys();
      used := [];
      if HasOldSyntax(v) {
        return Some(OldSyntax), [];
      }
      expandCache := map[];
      var name := ParseName(v);
      if name.Some? {
        problem := SetOperator(depth, v, name.value, value);
      } else {
        problem, used := SetPlain(depth, v, value, parsing);
      }
    }

    method SetOperator(depth: nat, v: string, name: OpName, value: string) returns (problem: Option<Problem>)
      requires Valid()
      modifies dict, this`overridedata, this`objects, this`expandCache, this`overrides, this`inoverride,
        this`overridevars
      ensures Valid() && fresh(objects - old(objects)) && old(overridevars) <= overridevars
      ensures View() == AfterOp(old(View()), name, value)
      ensures problem.None? ==> expandCache == map[] && overrides == if name.base in old(overridevars) then None
        else old(overrides)
      ensures problem.None? ==> inoverride == old(inoverride)
      ensures name.base !in old(overridevars) ==> problem.None? && overridevars == old(overridevars)
      ensures problem.None? && name.base in old(overridevars) ==> RefsIn(value) <= overridevars
    {
      hide View;
      AddOp(name.base, name.keyword, Op(value, name.add));
      UpdateOverrides(name.base);
      if name.base in overridevars {
        problem := UpdateOverrideVars(depth, v, value);
        return;
      }
      return None;
    }

    method SetPlain(depth: nat, v: string, value: string, parsing: bool)
        returns (problem: Option<Problem>, ghost used: seq<string>)
      requires Valid() && expandCache == map[]
      modifies dict, this`overridedata, this`objects, this`expandCache, this`overrides, this`inoverride,
        this`overridevars
      ensures Valid() && fresh(objects - old(objects)) && old(overridevars) <= overridevars
      ensures v !in old(overridevars) ==> overridevars == old(overridevars)
      ensures problem.None? ==> View() == AfterSet(old(View()), v, value, parsing, used)
      ensures problem.None? && !parsing && v in old(overridedata) ==> IsUsed(old(View()), v, old(overrides), used)
      ensures problem.None? && !parsing && v in old(overridedata) && v !in old(overridevars) ==>
                Cleaned(WithoutOpsOn(old(View()), v), v, old(overrides), used)
      ensures problem.None? && v in old(overridevars) ==>
                overrides == None && expandCache == map[] && RefsIn(value) <= overridevars
      ensures problem.None? && v !in old(overridevars)
              && (parsing || v !in old(overridedata) || old(overrides).Some?) ==>
                overrides == old(overrides) && expandCache == map[]
      ensures problem.None? ==> inoverride == old(inoverride)
      ensures v !in old(overridevars)
              && (parsing || v !in old(overridedata) || old(SettlesFor(depth, WithoutOpsOn(View(), v)))) ==>
                problem.None?
    {
      hide CanSettle, View, Valid, Cleared, WithContent, WithFlags, WithoutOpsOn, Settles, SettledInto, RemovesAgree,
        ActiveNames;
      used := [];
      ShadowIsInvisible(View(), v);
      MakeShadowCopy(v);
      if !parsing {
        problem, used := ClearFirst(depth, v);
        if problem.Some? {
          return;
        }
      }
      Write(v, value);
      if v in overridevars {
        problem := UpdateOverrideVars(depth, v, value);
        return;
      }
      return None, used;
    }

    // The overrides that decide which variants a plain write deletes.
    ghost predicate IsUsed(st: Store, v: string, before: Option<seq<string>>, used: seq<string>) {
      if before.Some? then used == before.value else RemovesAgree(WithoutOpsOn(st, v)) ==>
        Settles(WithoutOpsOn(st, v), used)
    }

    method ClearFirst(depth: nat, v: string) returns (problem: Option<Problem>, used: seq<string>)
      requires Valid() && v in dict.vars && expandCache == map[]
      modifies dict, this`overridedata, this`objects, this`expandCache, this`overrides, this`inoverride
      ensures Valid() && fresh(objects - old(objects)) && v in dict.vars
      ensures problem.None? ==> View() == Cleared(old(View()), v, used)
      ensures problem.None? && v in old(overridedata) ==> Cleaned(WithoutOpsOn(old(View()), v), v, old(overrides), used)
      ensures problem.None? && v in old(overridedata) ==> IsUsed(old(View()), v, old(overrides), used)
      ensures problem.None? && v !in old(overridedata) ==> expandCache == map[] && overrides == old(overrides)
      ensures problem.None? ==> inoverride == old(inoverride)
      ensures v !in old(overridedata) || old(SettlesFor(depth, WithoutOpsOn(View(), v))) ==> problem.None?
    {
      hide View;
      ClearOps(v);
      RecordedKeys();
      if v in overridedata {
        problem, used := ClearVariants(depth, v);
        return;
      }
      return None, [];
    }

    // The write itself, after its name has been recorded.
    method Write(v: string, value: string)
      requires Valid() && v in dict.vars
      modifies dict, this`overridedata, this`objects
      ensures Valid() && fresh(objects - old(objects))
      ensures View() == WithContent(old(View()), v, value)
    {
      hide View;
      if ':' in v {
        UpdateOverrides(v);
      }
      WriteContent(v, value);
    }

    // Contents, overrides and watched variables as they are.
    ghost function Now(): Situation
      requires Valid()
      reads this, objects
    {
      Situation(View(), overrides, overridevars)
    }

    // Is `v`, or the variable that the operator is for, one of those that OVERRIDES may depend on?
    predicate Watched(v: string)
      reads this`overridevars
    {
      BaseOf(v) in overridevars
    }

    ghost predicate Stale(v: string, parsing: bool)
      requires Valid()
      reads this, objects
    {
      IsStale(Now(), v, parsing)
    }

    // `v` is no name that is refused, it is not watched, and if overrides are needed there are some.
    ghost predicate GoesThrough(depth: nat, v: string, parsing: bool)
      requires Valid()
      reads this, objects
    {
      !HasOldSyntax(v) && !Watched(v)
      && (ParseName(v).Some? || parsing || v !in overridedata || SettlesFor(depth, WithoutOpsOn(View(), v)))
    }

    // Overrides and cache agree with what the store holds.
    ghost predicate Coherent()
      reads this, objects
    {
      Valid() && !inoverride && Settled(View(), overrides) && CacheFits(View(), overrides, expandCache)
    }

    // `setVar`, with what it means for the cache.
    method Set(depth: nat, v: string, value: string, parsing: bool)
        returns (problem: Option<Problem>, ghost used: seq<string>)
      requires Valid()
      modifies this, dict
      ensures Valid() && dict == old(dict)
      ensures problem.None? ==> View() == AfterSetVar(old(View()), v, value, parsing, used)
      ensures problem.None? && old(Coherent() && IsSafeToSet(Now(), v, parsing)) ==> Coherent()
      ensures problem.None? ==> Steps(old(Now()), depth, SetCommand(v, value, parsing), Now())
      ensures problem.None? && old(Stale(v, parsing)) ==> Cleaned(WithoutOpsOn(old(View()), v), v, old(overrides), used)
      ensures old(GoesThrough(depth, v, parsing)) ==> problem.None?
    {
      hide View, Valid, Steps, AfterSetVar, SetTouches, Settles, SettlesWithout, RemovesAgree, CacheFits, SettledInto,
        ActiveNames, StaleIsSafe, GoesThrough;
      ghost var s, before := Now(), Coherent() && IsSafeToSet(Now(), v, parsing);
      RecordedKeys();
      problem, used := SetVar(depth, v, value, parsing);
      if problem.None? {
        SetSteps(s, depth, v, value, parsing, used, Now());
        if before {
          if old(Stale(v, parsing)) {
            StaleWriteIsRight(s.st, v, value, used, expandCache);
          } else {
            EmptyFits(View(), overrides);
            if !old(Watched(v)) { SetKeepsSettled(s.st, s.inForce, v, value, parsing, used); }
          }
        }
      }
    }

    method WriteContent(v: string, value: string)
      requires Valid() && v in dict.vars
      modifies dict
      ensures Valid()
      ensures View() == WithFlags(old(View()), v, FlagsOf(old(View()), v).(content := Some(value)))
    {
      LocalFlags(v);
      WriteFlags(v, dict.vars[v].(content := Some(value)));
    }

    // `delVar`, with what it means for the cache.
    method Delete(v: string)
      requires Valid()
      modifies this, dict
      ensures Valid() && dict == old(dict) && View() == AfterDel(old(View()), v)
      ensures expandCache == map[] && overrides == old(overrides)
      ensures old(Coherent() && SettlesApart(Now(), DelTouches(v))) ==> Coherent()
      ensures overridevars == old(overridevars)
    {
      hide View, Valid;
      ghost var st := View();
      DelVar(v);
      if old(Coherent() && SettlesApart(Now(), DelTouches(v))) {
        DelKeepsSettled(st, overrides, v);
      }
    }

    // `appendVar` and `prependVar`
    method Edit(depth: nat, v: string, edit: Edit) returns (problem: Option<Problem>)
      requires Valid()
      modifies this, dict
      ensures Valid() && dict == old(dict)
      ensures problem.None? ==> View() == AfterEdits(old(View()), v, [edit])
      ensures problem.None? && old(Coherent() && IsSafeToSet(Now(), EditName(v, edit), true)) ==> Coherent()
      ensures problem.None? ==> Steps(old(Now()), depth, EditCommand(v, edit), Now())
    {
      hide View, Valid;
      ghost var used;
      problem, used := Set(depth, EditName(v, edit), edit.text, true);
      assert [edit][1..] == [];
    }

    // `setVarFlag` of the weak default
    method SetWeak(depth: nat, v: string, value: string) returns (problem: Option<Problem>)
      requires Valid()
      modifies this, dict
      ensures Valid() && dict == old(dict) && View() == AfterWeak(old(View()), v, value)
      ensures problem.None? ==> expandCache == map[] && inoverride == old(inoverride)
      ensures problem.None? ==> overrides == if v in old(overridevars) then None else old(overrides)
      ensures v !in old(overridevars) ==> overridevars == old(overridevars)
      ensures problem.None? && v in old(overridevars) ==> RefsIn(value) + old(overridevars) <= overridevars
    {
      hide View;
      expandCache := map[];
      WeakContent(v, value);
      if ':' in v {
        UpdateOverrides(v);
      }
      if v in overridevars {
        problem := UpdateOverrideVars(depth, v, value);
        return;
      }
      return None;
    }

    method WeakContent(v: string, value: string)
      requires Valid() && expandCache == map[]
      modifies dict, this`expandCache
      ensures Valid() && expandCache == map[]
      ensures View() == WithFlags(old(View()), v, FlagsOf(old(View()), v).(weak := Some(value)))
    {
      hide View, Valid;
      ghost var st := View();
      MakeShadowCopy(v);
      LocalFlags(v);
      OverwriteFlags(st, v, FlagsOf(st, v), FlagsOf(st, v).(weak := Some(value)));
      WriteFlags(v, dict.vars[v].(weak := Some(value)));
    }

    // `setVarFlag` of an ordinary flag
    method SetFlag(v: string, flag: string, value: string)
      requires Valid()
      modifies dict, this`expandCache
      ensures Valid() && expandCache == map[] && View() == AfterFlag(old(View()), v, flag, value)
    {
      hide View;
      ghost var st := View();
      expandCache := map[];
      MakeShadowCopy(v);
      LocalFlags(v);
      var others := dict.vars[v].others;
      OverwriteFlags(st, v, FlagsOf(st, v), FlagsOf(st, v).(others := others[flag := value]));
      WriteFlags(v, dict.vars[v].(others := others[flag := value]));
    }

    // `getVar`: in a coherent store whose removes agree, the value that a read from scratch under the
    // settled overrides gives, whether or not it comes from the cache.
    method GetVar(depth: nat, v: string) returns (r: Result<Option<string>, Problem>)
      requires Valid()
      modifies this`overrides, this`inoverride, this`expandCache
      ensures Valid() && View() == old(View())
      ensures old(overrides).Some? ==> overrides == old(overrides)
      ensures r.Ok? && old(Coherent() && RemovesAgree(View())) ==>
        Coherent() && exists e :: Fits(View(), overrides, v, e) && e.value == r.value
      ensures old(Coherent() && RemovesAgree(View())) && CanRead(View(), true, old(overrides), depth, v) ==> r.Ok?
    {
      ghost var st, ok := View(), Coherent() && RemovesAgree(View());
      var p := GetEntry(depth, v, true, st, ok);
      if p.Err? {
        return Err(p.error);
      }
      return Ok(p.value.value);
    }

    // `getVar(v, expand=False)`: the operators are applied, nothing is expanded or cached for `v`. Still
    // the active removes go into the set of the variant.
    method GetRaw(depth: nat, v: string, ghost st: Store, ghost ok: bool) returns (r: Result<Option<string>, Problem>)
      requires Valid() && st == View()
      requires ok ==> Right(st, overrides, expandCache)
      modifies this`overrides, this`inoverride, this`expandCache
      ensures st == View() && ReadDone(st, ok, old(overrides), old(expandCache), FailureOf(r))
      ensures ok && r.Ok? ==> forall o :: Allows(overrides, o) ==> ReadsRaw(st, o, v, r.value)
    {
      hide View, Valid, RemovesAgree, CacheFits, Grows, Settles, VariantFrom, VariantIs, RawFrom, FlagsOf, OrEmpty;
      var found := GetVariant(depth, v, st, ok);
      if found.Err? {
        return Err(found.error);
      }
      var (variant, lender) := found.value;
      ghost var mid, before := expandCache, overrides;
      var f := Lookup(v);
      r := RawValue(depth, f, variant.raw, FlagsOf(st, v), st, ok);
      VariantStays(st, before, mid, overrides, expandCache, v, variant, lender);
      if old(overrides).Some? { GrowsOn(old(expandCache), mid, expandCache); }
      if r.Ok? && OrEmpty(r.value) != "" && f.removes != null {
        ghost var done := expandCache;
        var problem := AddRemoves(depth, v, f, variant, lender, st, ok);
        if old(overrides).Some? { GrowsOn(old(expandCache), done, expandCache); }
        if problem.Some? {
          r := Err(problem.value);
        }
      }
    }

    method AddRemoves(depth: nat, v: string, f: FlagDict, ghost variant: Entry, lender: Option<string>,
                      ghost st: Store, ghost ok: bool)
      returns (problem: Option<Problem>)
      requires Valid() && st == View() && FlagLists(f) <= objects + {null} && ViewFlags(f) == FlagsOf(st, v)
        && f.removes != null
      requires ok ==> Right(st, overrides, expandCache)
      requires VariantFrom(st, overrides, expandCache, v, variant, lender)
      modifies this`overrides, this`inoverride, this`expandCache
      ensures st == View() && ReadDone(st, ok, old(overrides), old(expandCache), problem)
    {
      hide View, Valid, RemovesAgree, CacheFits, Grows, Settles, VariantFrom, HasLent;
      var own;
      problem, own := OwnRemoves(depth, v, f, st, ok);
      VariantStays(st, old(overrides), old(expandCache), overrides, expandCache, v, variant, lender);
      LenderIsChosen(st, overrides, expandCache, v, variant, lender);
      if problem.None? && lender.Some? {
        assert Allows(overrides, overrides.value);
        ghost var mid := expandCache;
        LendActive(v, lender.value, own, st, ok);
        if old(overrides).Some? { GrowsOn(old(expandCache), mid, expandCache); }
      }
    }

    // ----- keys -----

    // `__iter__`: the names with flags in the nearest dictionary that has the name, and the names
    // with an active variant.
    method Keys(depth: nat) returns (r: Result<set<string>, Problem>)
      requires Valid()
      modifies this`overrides, this`inoverride, this`expandCache
      ensures Valid() && View() == old(View())
      ensures old(overrides).Some? ==> overrides == old(overrides)
      ensures r.Ok? && old(Coherent() && RemovesAgree(View())) ==> Coherent()
      ensures r.Ok? ==> overrides.Some? && forall k :: k in r.value <==>
        (k in dict.All() && dict.All()[k] != NO_FLAG_DICT) || HasActive(RecordsOf(View(), k), overrides.value)
      ensures r.Ok? ==> forall k :: IsKey(View(), overrides.value, k) ==> k in r.value
    {
      hide View, ViewFlags, CacheFits, RemovesAgree, Settles, Grows, Known, Sees, CanSettle;
      ghost var st, ok := View(), Coherent() && RemovesAgree(View());
      var problem := NeedOverrides(depth, st, ok);
      if problem.Some? {
        return Err(problem.value);
      }
      if overrides.None? {
        return Err(NoOverrides);
      }
      var active := ActiveKeys(overrides.value);
      var klist, deleted := dict.KeyList({}, active);
      FlagsInChain();
      return Ok(klist + active);
    }

    lemma FlagsInChain()
      requires Valid()
      ensures forall k :: FlagsOf(View(), k) != NO_FLAGS ==> k in dict.All() && dict.All()[k] != NO_FLAG_DICT
    {}

    method ActiveKeys(o: seq<string>) returns (active: set<string>)
      requires Valid()
      ensures forall k :: k in active <==> HasActive(RecordsOf(View(), k), o)
    {
      hide View;
      RecordedKeys();
      active := {};
      var todo := overridedata.Keys;
      while todo != {}
        invariant todo <= overridedata.Keys
        invariant forall k :: k in active <==> k in overridedata.Keys - todo && HasActive(overridedata[k].items, o)
      {
        var k :| k in todo;
        var names := FindActive(overridedata[k].items, o);
        ActiveNamesFound(overridedata[k].items, o);
        if names != [] {
          active := active + {k};
        }
        todo := todo - {k};
      }
    }

    // ----- renaming -----

    // `dest.extend(src)` on a copy of the list, when the old name has one.
    method MoveOps(v: string, keyword: Keyword, src: PyList?<Op>)
      requires Valid()
      modifies dict, this`objects, this`expandCache
      ensures Valid() && old(objects) <= objects
      ensures Alike(View(), WithFlags(old(View()), v, WithMore(FlagsOf(old(View()), v), keyword, old(ItemsOf(src)))))
    {
      hide View, Alike;
      ghost var st := View();
      if src == null {
        NoMoreAlike(st, v, keyword);
        return;
      }
      var f := Lookup(v);
      var l := CopyOps(OpsOf(f, keyword), src.items);
      MakeShadowCopy(v);
      var g := dict.vars[v];
      OpsOfView(f, keyword);
      OpsOfView(g, keyword);
      ghost var after := WithMore(FlagsOf(st, v), keyword, src.items);
      OverwriteFlags(st, v, FlagsOf(st, v), after);
      assert ViewFlags(WithOps(g, keyword, l)) == after;
      WriteFlags(v, WithOps(g, keyword, l));
      AlikeItself(View());
    }

    // All operators of `key`.
    method MoveAllOps(key: string, newkey: string)
      requires Valid()
      modifies dict, this`objects, this`expandCache
      ensures Valid() && Alike(View(), WithMerged(old(View()), newkey, FlagsOf(old(View()), key)))
    {
      hide View, Alike, WithMore, FlagsOf, WithFlags, Valid, ItemsOf, FlagLists;
      ghost var st := View();
      var f := Lookup(key);
      ghost var flags := ViewFlags(f);
      MoveOps(newkey, Append, f.appends);
      ghost var st1 := View();
      MoveOps(newkey, Prepend, f.prepends);
      ghost var st2 := View();
      MoveOps(newkey, Remove, f.removes);
      OneListAtATime(st, st1, st2, View(), newkey, flags);
    }

    // `renameVar`
    method RenameVar(depth: nat, key: string, newkey: string) returns (problem: Option<Problem>)
      requires Valid()
      modifies this, dict
      ensures Valid() && dict == old(dict)
      ensures problem.None? ==> SameOutcome(Ok(View()), AfterRename(old(View()), key, newkey, depth))
      ensures problem.None? ==> inoverride == old(inoverride) && (overrides == None || overrides == old(overrides))
      ensures problem.None? && key != newkey ==> expandCache == map[]
      ensures problem.None? && key == newkey ==>
        View() == old(View()) && overrides == old(overrides) && expandCache == old(expandCache)
      decreases depth, 0
    {
      hide View, Alike, Valid, AfterSetVar, AfterDel, VariantsMoved, HasOldSyntax, RecordName, WithMerged;
      ghost var st := View();
      if depth == 0 {
        return Some(TooDeep);
      }
      if key == newkey {
        AlikeItself(View());
        return None;
      }
      var f := Lookup(key);
      var val := if f.content.Some? then f.content else f.weak;
      if val.Some? {
        ghost var used;
        problem, used := SetVar(depth, newkey, val.value, true);
        if problem.Some? {
          return;
        }
        ParsingClearsNothing(st, newkey, val.value, used);
      }
      assert View() == Written(st, key, newkey);
      MoveAllOps(key, newkey);
      ghost var operators := View();
      problem := MoveVariants(depth - 1, key, newkey);
      if problem.Some? {
        return;
      }
      RenameInSteps(st, key, newkey, depth, operators, View());
      if ':' in newkey && val.None? {
        UpdateOverrides(newkey);
      }
      DelVar(key);
    }

    method MoveVariants(depth: nat, key: string, newkey: string) returns (problem: Option<Problem>)
      requires Valid()
      modifies this, dict
      ensures Valid() && dict == old(dict)
      ensures problem.None? ==> SameOutcome(Ok(View()), VariantsMoved(old(View()), key, newkey, depth))
      ensures problem.None? ==> inoverride == old(inoverride) && (overrides == None || overrides == old(overrides))
      decreases depth, 1
    {
      hide View, Alike, Valid, AfterRename;
      ghost var st := View();
      RecordedKeys();
      if key !in overridedata {
        AlikeItself(View());
        return None;
      }
      var records := overridedata[key].items;
      var empty := new PyList([]);
      PutRecords(newkey, empty);
      ghost var start := View();
      assert records[0..] == records;
      SameItself(AfterVariants(start, key, newkey, records, depth));
      for i := 0 to |records|
        invariant Valid() && dict == old(dict)
        invariant inoverride == old(inoverride) && (overrides == None || overrides == old(overrides))
        invariant SameOutcome(AfterVariants(View(), key, newkey, records[i..], depth),
          AfterVariants(start, key, newkey, records, depth))
      {
        RecordedKeys();
        if newkey !in overridedata {
          return Some(MissingKey);
        }
        ghost var before := View();
        var v := Replace(records[i].name, key, newkey);
        AppendRecord(newkey, Record(v, records[i].cond));
        problem := RenameVar(depth, records[i].name, v);
        if problem.Some? {
          return;
        }
        VariantsOnce(start, before, View(), key, newkey, records, i, depth);
      }
      assert records[|records|..] == [];
      return None;
    }

    // `renameVar`, with what it means for the cache.
    method Rename(depth: nat, key: string, newkey: string) returns (problem: Option<Problem>)
      requires Valid()
      modifies this, dict
      ensures Valid() && dict == old(dict)
      ensures problem.None? ==> SameOutcome(Ok(View()), AfterRename(old(View()), key, newkey, depth))
      ensures problem.None? && old(Coherent())
        && (old(overrides).None? || SettlesWithout(old(View()), old(overrides).value,
          RenameTouches(old(View()), key, newkey, depth)))
        ==> Coherent()
    {
      hide View, Valid, RenameTouches, SettlesWithout, Settles, AfterRename;
      ghost var st := View();
      problem := RenameVar(depth, key, newkey);
      if problem.None? {
        RenameKeepsSettled(st, old(overrides), key, newkey, depth, View());
      }
    }

    // ----- copies -----

    // `createCopy`: the copy reads what this store holds, through a new dictionary in front of this
    // one's and through the same lists.
    method CreateCopy() returns (copy: DataSmart)
      requires Valid()
      ensures fresh(copy) && fresh(copy.dict) && copy.dict.Linked() && copy.dict.data == dict && copy.dict.vars == map[]
      ensures copy.Valid() && copy.View() == View() && copy.overridedata == overridedata
      ensures copy.overrides == None && copy.expandCache == map[] && copy.overridevars == overridevars
        && copy.Coherent()
    {
      hide ViewVars, ViewFlags, FlagLists, VarDict.All, Settles, RecordLists, AllLists;
      copy := new DataSmart();
      copy.dict := new VarDict(dict);
      copy.overridedata := overridedata;
      copy.overridevars := overridevars;
      copy.objects := objects + {copy.dict};
    }

    // After writes to an ancestor, this store still stands on well-formed dictionaries and lists.
    ghost method Refresh()
      requires dict.Linked()
      modifies this`objects
      ensures Valid()
    {
      objects := {dict} + dict.ancestors
        + (set l: object | l in AllLists(dict.All())) + RecordLists(overridedata);
    }

    // Any command keeps the cache right, unless it fails or settling looks at what it touches.
    method Execute(depth: nat, command: Command) returns (problem: Option<Problem>)
      requires Valid()
      modifies this, dict
      ensures Valid() && dict == old(dict)
      ensures problem.None? && old(Coherent() && IsSafe(Now(), depth, command)) ==> Coherent()
      ensures problem.None? ==> Steps(old(Now()), depth, command, Now())
    {
      hide View, Valid, SetTouches, DelTouches, RenameTouches, SettlesWithout, Settles, RemovesAgree, AfterRename,
        AfterSetVar, AfterDel, SameOutcome, StaleIsSafe, AfterWeak, AfterFlag, AfterEdits;
      match command
      case SetCommand(v, text, parsing) =>
        ghost var used;
        problem, used := Set(depth, v, text, parsing);
      case EditCommand(v, edit) =>
        problem := Edit(depth, v, edit);
      case DelCommand(v) =>
        Delete(v);
        problem := None;
      case RenameCommand(v, newname) =>
        problem := Rename(depth, v, newname);
      case WeakCommand(v, text) =>
        ghost var st := View();
        problem := SetWeak(depth, v, text);
        WeakKeepsSettled(st, old(overrides), v, text);
      case FlagCommand(v, flag, text) =>
        ghost var st := View();
        SetFlag(v, flag, text);
        FlagKeepsSettled(st, overrides, v, flag, text);
        problem := None;
      case ReadCommand(v) =>
        var value := GetVar(depth, v);
        problem := FailureOf(value);
      case KeysCommand =>
        var names := Keys(depth);
        problem := FailureOf(names);
    }

    // Commands one after another, up to one that fails. A store that was coherent is coherent after them
    // if each was safe in the situation in which it came.
    method Run(depth: nat, commands: seq<Command>)
        returns (problem: Option<Problem>, ghost trace: seq<Situation>)
      requires Valid()
      modifies this, dict
      ensures Valid() && dict == old(dict)
      ensures problem.None? ==>
        Runs(trace, depth, commands) && trace[0] == old(Now()) && trace[|commands|] == Now()
      ensures problem.None? && old(Coherent()) && IsSafeRun(trace, depth, commands) ==> Coherent()
    {
      hide View, Valid, Steps, IsSafe, Coherent;
      trace := [Now()];
      problem := None;
      for i := 0 to |commands|
        invariant Valid() && dict == old(dict) && problem == None
        invariant Runs(trace, depth, commands[..i]) && trace[0] == old(Now()) && trace[i] == Now()
        invariant old(Coherent()) && IsSafeRun(trace, depth, commands[..i]) ==> Coherent()
      {
        problem := Execute(depth, commands[i]);
        if problem.Some? {
          return;
        }
        assert commands[..i + 1] == commands[..i] + [commands[i]];
        RunsOneMore(trace, depth, commands[..i], commands[i], Now());
        if IsSafeRun(trace + [Now()], depth, commands[..i + 1]) {
          SafeSoFar(trace, depth, commands[..i], commands[i], Now());
        }
        trace := trace + [Now()];
      }
      assert commands[..|commands|] == commands;
    }
  }

  // One step of a script on the copies: a command on one of them, or a copy of one of them.
  datatype Step = On(index: nat, command: Command) | CopyOf(index: nat)

  // Any script of commands on a copy, on copies of it, and so on: the parent keeps what it holds,
  // and so does everything else that was there before.
  method RunOnCopies(depth: nat, parent: DataSmart, script: seq<Step>) returns (copies: seq<DataSmart>)
    requires parent.Valid()
    ensures parent.Valid() && parent.View() == old(parent.View())
    ensures unchanged(parent) && unchanged(parent.objects)
  {
    hide *;
    var first := parent.CreateCopy();
    copies := [first];
    for i := 0 to |script|
      invariant copies != []
      invariant forall c :: c in copies ==> fresh(c) && fresh(c.dict) && c.dict.Linked()
    {
      var c := copies[script[i].index % |copies|];
      var d := c.dict;
      c.Refresh();
      assert c.dict == d && fresh(d);
      match script[i]
      case On(_, command) =>
        var problem := c.Execute(depth, command);
      case CopyOf(_) =>
        var more := c.CreateCopy();
        copies := copies + [more];
    }
  }
}
