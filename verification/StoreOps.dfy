// What the writing operations do to the contents of a datastore (data_smart.py:542-769),
// as functions on stores, and the laws of writing and reading back.
module StoreOps {
  import opened Prelude
  import opened Text
  import opened OverrideScan
  import opened Expansion

  // ----- names -----

  datatype Keyword = Append | Prepend | Remove

  // A name such as `base:append:add`.
  datatype OpName = OpName(base: string, keyword: Keyword, add: string)

  function KeywordAt(s: string): Option<(Keyword, string)> {
    if ":append" <= s then Some((Append, s[7..]))
    else if ":prepend" <= s then Some((Prepend, s[8..]))
    else if ":remove" <= s then Some((Remove, s[7..]))
    else None
  }

  function Condition(rest: string): Option<string> {
    if rest == "" then Some("")
    else if rest[0] == ':' && forall i :: 1 <= i < |rest| ==> !('A' <= rest[i] <= 'Z') then Some(rest[1..])
    else None
  }

  // `__setvar_regexp__.match(var)`: the first place from `i` on where an operator fits.
  function ParseFrom(v: string, i: nat): Option<OpName>
    decreases |v| - i
  {
    if i >= |v| then None
    else match KeywordAt(v[i..])
      case Some((keyword, rest)) =>
        (match Condition(rest)
         case Some(add) => Some(OpName(v[..i], keyword, add))
         case None => ParseFrom(v, i + 1))
      case None => ParseFrom(v, i + 1)
  }

  function ParseName(v: string): Option<OpName> {
    ParseFrom(v, 0)
  }

  // The names that `setVar` refuses.
  predicate HasOldSyntax(v: string) {
    !("__anon_" <= v) && (Contains(v, "_append") || Contains(v, "_prepend") || Contains(v, "_remove"))
  }

  // v.rfind(':')
  function LastColon(v: string): (p: Option<nat>)
    ensures p.Some? ==> p.value < |v| && v[p.value] == ':'
    ensures p.Some? <==> ':' in v
  {
    if v == "" then None
    else if v[|v| - 1] == ':' then Some(|v| - 1)
    else
      assert v == v[..|v| - 1] + [v[|v| - 1]];
      LastColon(v[..|v| - 1])
  }

  // `__override_regexp__.match(override)`
  predicate IsOverride(o: string) {
    o != "" && ('a' <= o[0] <= 'z' || '0' <= o[0] <= '9')
  }

  // ----- overridedata -----

  function AddRecord(recorded: map<string, seq<Record>>, k: string, r: Record): map<string, seq<Record>> {
    var l := if k in recorded then recorded[k] else [];
    recorded[k := if r in l then l else l + [r]]
  }

  function RecordAt(recorded: map<string, seq<Record>>, v: string, short: string, override: string): map<string,
                    seq<Record>>
    requires short <= v
    decreases |short|
  {
    if !IsOverride(override) then recorded
    else
      var recorded' := AddRecord(recorded, short, Record(v, override));
      match LastColon(short)
      case None => recorded'
      case Some(p) => if p == 0 then recorded' else RecordAt(recorded', v, short[..p], v[p + 1..])
  }

  // `_setvar_update_overrides`. Without a colon the program cuts off the last character.
  function RecordName(recorded: map<string, seq<Record>>, v: string): map<string, seq<Record>> {
    match LastColon(v)
    case Some(p) => RecordAt(recorded, v, v[..p], v[p + 1..])
    case None => if v == "" then recorded else RecordAt(recorded, v, v[..|v| - 1], v)
  }

  // list.remove
  function RemoveFirst<T(==)>(l: seq<T>, x: T): seq<T> {
    if l == [] then [] else if l[0] == x then l[1..] else [l[0]] + RemoveFirst(l[1..], x)
  }

  function DropRecord(recorded: map<string, seq<Record>>, k: string, r: Record): map<string, seq<Record>> {
    if k in recorded then recorded[k := RemoveFirst(recorded[k], r)] else recorded
  }

  function UnrecordAt(recorded: map<string, seq<Record>>, v: string, short: string, override: string): map<string,
                      seq<Record>>
    requires short <= v
    decreases |short|
  {
    if !IsOverride(override) then recorded
    else
      var recorded' := DropRecord(recorded, short, Record(v, override));
      match LastColon(short)
      case None => recorded'
      case Some(p) => if p == 0 then recorded' else UnrecordAt(recorded', v, short[..p], v[p + 1..])
  }

  function UnrecordName(recorded: map<string, seq<Record>>, v: string): map<string, seq<Record>> {
    match LastColon(v)
    case Some(p) => UnrecordAt(recorded, v, v[..p], v[p + 1..])
    case None => recorded
  }

  // ----- the operations -----

  function WithFlags(st: Store, v: string, f: Flags): Store {
    st.(vars := st.vars[v := f])
  }

  function WithOp(f: Flags, keyword: Keyword, op: Op): Flags {
    match keyword
    case Append => f.(appends := f.appends + [op])
    case Prepend => f.(prepends := f.prepends + [op])
    case Remove => f.(removes := f.removes + [op])
  }

  // setVar of `base:append`, `base:prepend:add` and so on
  function AfterOp(st: Store, name: OpName, text: string): Store {
    Store(st.vars[name.base := WithOp(FlagsOf(st, name.base), name.keyword, Op(text, name.add))],
          RecordName(st.recorded, name.base))
  }

  // delVar
  function AfterDel(st: Store, v: string): Store {
    Store(st.vars[v := NO_FLAGS], UnrecordName(st.recorded - {v}, v))
  }

  function AfterDels(st: Store, names: seq<string>): Store
    decreases |names|
  {
    if names == [] then st else AfterDels(AfterDel(st, names[0]), names[1..])
  }

  // The variants of `v` that are active under `overrides`.
  function ActiveNames(records: seq<Record>, overrides: seq<string>): seq<string> {
    if records == [] then []
    else (if Applies(records[0].cond, overrides) then [records[0].name] else []) + ActiveNames(records[1..], overrides)
  }

  function WithoutOps(f: Flags): Flags {
    f.(appends := [], prepends := [], removes := [])
  }

  function WithoutOpsOn(st: Store, v: string): Store {
    WithFlags(st, v, WithoutOps(FlagsOf(st, v)))
  }

  // What a plain setVar clears away first.
  function Cleared(st: Store, v: string, overrides: seq<string>): Store {
    var bare := WithoutOpsOn(st, v);
    if v !in st.recorded then bare
    else
      var rest := AfterDels(bare, ActiveNames(st.recorded[v], overrides));
      rest.(recorded := rest.recorded - {v})
  }

  function WithContent(st: Store, v: string, text: string): Store {
    Store(st.vars[v := FlagsOf(st, v).(content := Some(text))],
          if ':' in v then RecordName(st.recorded, v) else st.recorded)
  }

  // setVar of a name without an operator; with `parsing` nothing is cleared
  function AfterSet(st: Store, v: string, text: string, parsing: bool, overrides: seq<string>): Store {
    WithContent(if parsing then st else Cleared(st, v, overrides), v, text)
  }

  // setVar
  function AfterSetVar(st: Store, v: string, text: string, parsing: bool, overrides: seq<string>): Store {
    match ParseName(v)
    case Some(name) => AfterOp(st, name, text)
    case None => AfterSet(st, v, text, parsing, overrides)
  }

  // setVarFlag of the weak default
  function AfterWeak(st: Store, v: string, text: string): Store {
    Store(st.vars[v := FlagsOf(st, v).(weak := Some(text))],
          if ':' in v then RecordName(st.recorded, v) else st.recorded)
  }

  // setVarFlag of an ordinary flag
  function AfterFlag(st: Store, v: string, flag: string, text: string): Store {
    WithFlags(st, v, FlagsOf(st, v).(others := FlagsOf(st, v).others[flag := text]))
  }

  // The flag holds the text, and nothing else has changed.
  lemma FlagReadsBack(st: Store, v: string, flag: string, text: string)
    ensures var (f, g) := (FlagsOf(st, v), FlagsOf(AfterFlag(st, v, flag, text), v));
      && flag in g.others && g.others[flag] == text && g.(others := map[]) == f.(others := map[])
    ensures FlagsOf(AfterFlag(st, v, flag, text), v).others - {flag} == FlagsOf(st, v).others - {flag}
    ensures AfterFlag(st, v, flag, text).recorded == st.recorded
    ensures forall k :: k != v ==> FlagsOf(AfterFlag(st, v, flag, text), k) == FlagsOf(st, k)
  {}

  // A shadow copy of the flags changes nothing that is written or read later.
  lemma {:induction false} ShadowIsInvisible(st: Store, v: string)
    ensures var st' := WithFlags(st, v, FlagsOf(st, v));
      && WithoutOpsOn(st', v) == WithoutOpsOn(st, v)
      && (forall o :: Cleared(st', v, o) == Cleared(st, v, o))
      && (forall text :: WithContent(st', v, text) == WithContent(st, v, text))
  {
    var st' := WithFlags(st, v, FlagsOf(st, v));
    assert WithoutOpsOn(st', v).vars == WithoutOpsOn(st, v).vars;
    forall text ensures WithContent(st', v, text) == WithContent(st, v, text) {
      assert WithContent(st', v, text).vars == WithContent(st, v, text).vars;
    }
  }
}
