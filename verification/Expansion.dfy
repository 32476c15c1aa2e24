// What reading a variable means: the value of `getVarFlag(var, "_content")`, computed from
// the contents of the datastore and a fixed list of overrides, without any cache
// (data_smart.py:451-486 and 771-901).
//
// Evaluation is bounded by a fuel `n`. Every statement about it is made for the results that
// some fuel reaches, so the bound takes nothing away; a read that no fuel finishes is one on
// which the program exceeds its recursion limit or loops.
module Expansion {
  import opened Prelude
  import opened Text
  import opened Words
  import opened OverrideScan

  // `[value, override]`, an entry of the flags `:append`, `:prepend` and `:remove`.
  datatype Op = Op(text: string, cond: string)

  // The flags of one variable.
  datatype Flags = Flags(content: Option<string>, weak: Option<string>,
                         appends: seq<Op>, prepends: seq<Op>, removes: seq<Op>, others: map<string, string>)

  const NO_FLAGS := Flags(None, None, [], [], [], map[])

  // What a datastore holds: the flags of each variable, with the parents folded in, and
  // `overridedata`.
  datatype Store = Store(vars: map<string, Flags>, recorded: map<string, seq<Record>>)

  // The result of a read: the unexpanded value, the expanded value, the variables referred to,
  // and the `:remove` words that took effect.
  datatype Entry = Entry(raw: Option<string>, value: Option<string>, refs: set<string>, removes: set<string>)

  datatype Problem = SelfReference | TooDeep | Unstable | NoOverrides | OldSyntax | MissingKey | SetChanged

  function FlagsOf(st: Store, v: string): Flags {
    if v in st.vars then st.vars[v] else NO_FLAGS
  }

  function RecordsOf(st: Store, v: string): seq<Record> {
    if v in st.recorded then st.recorded[v] else []
  }

  // ----- :append, :prepend and the active part of :remove -----

  predicate OpActive(op: Op, overrides: seq<string>) {
    op.cond == "" || forall s :: s in Split(op.cond, ':') ==> s in overrides
  }

  function OrEmpty(value: Option<string>): string {
    if value.Some? then value.value else ""
  }

  function AppendAll(value: Option<string>, ops: seq<Op>, overrides: seq<string>): Option<string>
    decreases |ops|
  {
    if ops == [] then value
    else AppendAll(
        if OpActive(ops[0], overrides) then Some(OrEmpty(value) + ops[0].text) else value, ops[1..], overrides)
  }

  function PrependAll(value: Option<string>, ops: seq<Op>, overrides: seq<string>): Option<string>
    decreases |ops|
  {
    if ops == [] then value
    else PrependAll(
        if OpActive(ops[0], overrides) then Some(ops[0].text + OrEmpty(value)) else value, ops[1..], overrides)
  }

  function ActiveTexts(ops: seq<Op>, overrides: seq<string>): set<string> {
    set op | op in ops && OpActive(op, overrides) :: op.text
  }

  // The unexpanded value, given the unexpanded value of the chosen conditional variant.
  function RawFrom(f: Flags, variant: Option<string>, overrides: seq<string>): Option<string> {
    var start := if variant.Some? then variant else if f.content.Some? then f.content else f.weak;
    PrependAll(AppendAll(start, f.appends, overrides), f.prepends, overrides)
  }

  // ----- ${VAR} -----

  predicate IsNameChar(c: char) {
    'a' <= c <= 'z' || 'A' <= c <= 'Z' || '0' <= c <= '9' || c in {'-', '_', '+', '.', '/', '~', ':'}
  }

  function NameEnd(s: string): (e: nat)
    ensures e <= |s|
  {
    if s == "" || !IsNameChar(s[0]) then 0 else 1 + NameEnd(s[1..])
  }

  // The name at the start of `s`, when `s` starts with a reference to a variable.
  function RefAt(s: string): (key: Option<string>)
    ensures key.Some? ==> key.value != "" && |key.value| + 3 <= |s|
  {
    if !("${" <= s) then None
    else
      var e := NameEnd(s[2..]);
      if e > 0 && 2 + e < |s| && s[2 + e] == '}' then Some(s[2..2 + e]) else None
  }

  // s.find("${") != -1
  predicate HasRef(s: string) {
    s != "" && ("${" <= s || HasRef(s[1..]))
  }

  // The names that stand in `s` as `${NAME}`.
  function RefsIn(s: string): set<string> {
    if s == "" then {}
    else match RefAt(s)
      case None => RefsIn(s[1..])
      case Some(key) => {key} + RefsIn(s[|key| + 3..])
  }

  lemma {:induction false} NoRefsIn(s: string)
    requires !HasRef(s)
    ensures RefsIn(s) == {}
  {
    if s != "" {
      NoRefsIn(s[1..]);
    }
  }

  // One call of `__expand_var_regexp__.sub(varparse.var_sub, s)`, for the variable `name`.
  function Sub(st: Store, overrides: seq<string>, n: nat, name: string, s: string): Result<(string, set<string>),
               Problem>
    decreases n, 1, |s|
  {
    if s == "" then Ok(("", {}))
    else match RefAt(s)
      case None =>
        (match Sub(st, overrides, n, name, s[1..])
         case Err(e) => Err(e)
         case Ok((t, refs)) => Ok((s[..1] + t, refs)))
      case Some(key) =>
        if key == name then Err(SelfReference)
        else match Eval(st, overrides, n, key)
          case Err(e) => Err(e)
          case Ok(entry) =>
            (match Sub(st, overrides, n, name, s[|key| + 3..])
             case Err(e) => Err(e)
             case Ok((t, refs)) => Ok(((if entry.value.Some? then entry.value.value else s[..|key| + 3]) + t,
               {key} + refs)))
  }

  // `expandWithRefs`: substitute until nothing changes.
  function Expand(st: Store, overrides: seq<string>, n: nat, name: string, s: string): Result<(string, set<string>),
                  Problem>
    decreases n, 2, 0
  {
    if !HasRef(s) then Ok((s, {}))
    else if n == 0 then Err(TooDeep)
    else match Sub(st, overrides, n - 1, name, s)
      case Err(e) => Err(e)
      case Ok((t, refs)) =>
        if t == s then Ok((s, refs))
        else match Expand(st, overrides, n - 1, name, t)
          case Err(e) => Err(e)
          case Ok((u, more)) => Ok((u, refs + more))
  }

  function ExpandOption(st: Store, overrides: seq<string>, n: nat, name: string,
                        s: Option<string>): Result<(Option<string>, set<string>), Problem>
    decreases n, 3, 0
  {
    if s.None? then Ok((None, {}))
    else match Expand(st, overrides, n, name, s.value)
      case Err(e) => Err(e)
      case Ok((t, refs)) => Ok((Some(t), refs))
  }

  // `expanded_removes`
  function RemoveWords(st: Store, overrides: seq<string>, n: nat,
                       removes: set<string>): Result<map<string, set<string>>, Problem>
    decreases n, 3, 0
  {
    if forall r :: r in removes ==> Expand(st, overrides, n, "", r).Ok? then
      Ok(map r | r in removes :: FieldSet(Expand(st, overrides, n, "", r).value.0))
    else Err(TooDeep)
  }

  function FieldSet(s: string): set<string> {
    set w | w in Fields(s)
  }

  lemma FieldSetIsWords(s: string)
    ensures forall w :: w in FieldSet(s) ==> IsWord(w)
  {
    FieldsAreWords(s);
  }

  function Gone(words: map<string, set<string>>): set<string> {
    set r, w | r in words && w in words[r] :: w
  }

  // The `:remove` texts that match some word of `s`.
  function Used(words: map<string, set<string>>, s: string): set<string> {
    set r | r in words && exists w :: w in Fields(s) && w in words[r]
  }

  function Removed(raw: Option<string>, s: string, refs: set<string>, words: map<string, set<string>>): Entry {
    Entry(raw, Some(Drop(s, Gone(words))), refs, Used(words, s))
  }

  // The read itself: first the chosen variant, then the value, then the removes.
  function Eval(st: Store, overrides: seq<string>, n: nat, v: string): Result<Entry, Problem>
    decreases n, 0, 0
  {
    if n == 0 then Err(TooDeep)
    else match EvalVariant(st, overrides, n - 1, Chosen(RecordsOf(st, v), overrides))
      case Err(e) => Err(e)
      case Ok(variant) => EvalFrom(st, overrides, n - 1, v, variant)
  }

  function EvalFrom(st: Store, overrides: seq<string>, n: nat, v: string, variant: Entry): Result<Entry, Problem>
    decreases n, 5, 0
  {
    var raw := RawFrom(FlagsOf(st, v), variant.raw, overrides);
    match ExpandOption(st, overrides, n, v, raw)
    case Err(e) => Err(e)
    case Ok((value, refs)) =>
      EvalRemoves(st, overrides, n, raw, value, refs, variant.removes + ActiveTexts(FlagsOf(st, v).removes, overrides))
  }

  function EvalRemoves(st: Store, overrides: seq<string>, n: nat, raw: Option<string>, value: Option<string>,
                       refs: set<string>, removes: set<string>): Result<Entry, Problem>
    decreases n, 4, 0
  {
    if OrEmpty(value) == "" || removes == {} then Ok(Entry(raw, value, refs, {}))
    else match RemoveWords(st, overrides, n, removes)
      case Err(e) => Err(e)
      case Ok(words) => Ok(Removed(raw, value.value, refs, words))
  }

  const NOTHING := Entry(None, None, {}, {})

  function EvalVariant(st: Store, overrides: seq<string>, n: nat, variant: Option<string>): Result<Entry, Problem>
    decreases n, 1, 0
  {
    if variant.None? then Ok(NOTHING) else Eval(st, overrides, n, variant.value)
  }

  // Some fuel finishes the read of `v`, with this result.
  ghost predicate Reads(st: Store, overrides: seq<string>, v: string, e: Entry) {
    exists n: nat :: Eval(st, overrides, n, v) == Ok(e)
  }

  // ----- more fuel gives the same result -----

  lemma {:induction false} EvalMono(st: Store, overrides: seq<string>, n: nat, m: nat, v: string)
    requires n <= m && Eval(st, overrides, n, v).Ok?
    ensures Eval(st, overrides, m, v) == Eval(st, overrides, n, v)
    decreases n, 0, 0
  {
    var chosen := Chosen(RecordsOf(st, v), overrides);
    if chosen.Some? {
      EvalMono(st, overrides, n - 1, m - 1, chosen.value);
    }
    EvalFromMono(st, overrides, n - 1, m - 1, v, EvalVariant(st, overrides, n - 1, chosen).value);
  }

  lemma {:induction false} EvalFromMono(st: Store, overrides: seq<string>, n: nat, m: nat, v: string, variant: Entry)
    requires n <= m && EvalFrom(st, overrides, n, v, variant).Ok?
    ensures EvalFrom(st, overrides, m, v, variant) == EvalFrom(st, overrides, n, v, variant)
    decreases n, 5, 0
  {
    var raw := RawFrom(FlagsOf(st, v), variant.raw, overrides);
    ExpandOptionMono(st, overrides, n, m, v, raw);
    var removes := variant.removes + ActiveTexts(FlagsOf(st, v).removes, overrides);
    if RemoveWords(st, overrides, n, removes).Ok? {
      RemoveWordsMono(st, overrides, n, m, removes);
    }
  }

  lemma {:induction false} ExpandOptionMono(st: Store, overrides: seq<string>, n: nat, m: nat, name: string,
                                            s: Option<string>)
    requires n <= m && ExpandOption(st, overrides, n, name, s).Ok?
    ensures ExpandOption(st, overrides, m, name, s) == ExpandOption(st, overrides, n, name, s)
    decreases n, 3, 0
  {
    if s.Some? {
      ExpandMono(st, overrides, n, m, name, s.value);
    }
  }

  lemma {:induction false} RemoveWordsMono(st: Store, overrides: seq<string>, n: nat, m: nat, removes: set<string>)
    requires n <= m && RemoveWords(st, overrides, n, removes).Ok?
    ensures RemoveWords(st, overrides, m, removes) == RemoveWords(st, overrides, n, removes)
    decreases n, 3, 0
  {
    forall r | r in removes ensures Expand(st, overrides, m, "", r) == Expand(st, overrides, n, "", r) {
      ExpandMono(st, overrides, n, m, "", r);
    }
    var few, many := RemoveWords(st, overrides, n, removes), RemoveWords(st, overrides, m, removes);
    assert many.Ok?;
    assert few.value == many.value;
  }

  lemma {:induction false} ExpandMono(st: Store, overrides: seq<string>, n: nat, m: nat, name: string, s: string)
    requires n <= m && Expand(st, overrides, n, name, s).Ok?
    ensures Expand(st, overrides, m, name, s) == Expand(st, overrides, n, name, s)
    decreases n, 2, 0
  {
    hide Sub, HasRef, Eval;
    if HasRef(s) {
      SubMono(st, overrides, n - 1, m - 1, name, s);
      var t := Sub(st, overrides, n - 1, name, s).value.0;
      if t != s {
        ExpandMono(st, overrides, n - 1, m - 1, name, t);
      }
    }
  }

  lemma {:induction false} SubMono(st: Store, overrides: seq<string>, n: nat, m: nat, name: string, s: string)
    requires n <= m && Sub(st, overrides, n, name, s).Ok?
    ensures Sub(st, overrides, m, name, s) == Sub(st, overrides, n, name, s)
    decreases n, 1, |s|
  {
    if s != "" {
      match RefAt(s)
      case None => SubMono(st, overrides, n, m, name, s[1..]);
      case Some(key) =>
        EvalMono(st, overrides, n, m, key);
        SubMono(st, overrides, n, m, name, s[|key| + 3..]);
    }
  }

  // A read has one result.
  lemma {:induction false} ReadsIsFunctional(st: Store, overrides: seq<string>, v: string, e1: Entry, e2: Entry)
    requires Reads(st, overrides, v, e1) && Reads(st, overrides, v, e2)
    ensures e1 == e2
  {
    var n: nat :| Eval(st, overrides, n, v) == Ok(e1);
    var m: nat :| Eval(st, overrides, m, v) == Ok(e2);
    EvalMono(st, overrides, n, n + m, v);
    EvalMono(st, overrides, m, n + m, v);
  }
}
