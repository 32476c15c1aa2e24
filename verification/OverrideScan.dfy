// How `DataSmart.getVarFlag` picks the conditional variant of a variable
// (data_smart.py:791-815): the scan over the dictionary `active`, on the strings and in the
// insertion order that the program uses.
module OverrideScan {
  import opened Prelude
  import opened Text

  // An entry `[var, override]` of `overridedata`.
  datatype Record = Record(name: string, cond: string)

  // A Python dictionary from override to variable name.
  datatype Dict = Dict(order: seq<string>, vals: map<string, string>)

  ghost predicate Sound(d: Dict) {
    NoRepeats(d.order) && forall k :: k in d.vals <==> k in d.order
  }

  function Put(d: Dict, k: string, v: string): (r: Dict)
    requires Sound(d)
    ensures Sound(r)
  {
    Dict(if k in d.vals then d.order else d.order + [k], d.vals[k := v])
  }

  function Without(order: seq<string>, k: string): (r: seq<string>)
    requires NoRepeats(order)
    ensures NoRepeats(r) && forall x :: x in r <==> x in order && x != k
    ensures k in order ==> Weight(r) + |k| == Weight(order)
  {
    if order == [] then []
    else
      assert order == [order[0]] + order[1..];
      if order[0] == k then order[1..] else
        var r := Without(order[1..], k);
        assert order[0] !in order[1..];
        assert ([order[0]] + r)[1..] == r;
        [order[0]] + r
  }

  function Del(d: Dict, k: string): (r: Dict)
    requires Sound(d)
    ensures Sound(r)
  {
    Dict(Without(d.order, k), d.vals - {k})
  }

  // The total length of the keys: what every stripping step decreases.
  function Weight(order: seq<string>): nat {
    if order == [] then 0 else |order[0]| + Weight(order[1..])
  }

  lemma {:induction false} WeightSnoc(order: seq<string>, k: string)
    ensures Weight(order + [k]) == Weight(order) + |k|
  {
    if order == [] {
      assert order + [k] == [k] && [k][1..] == [];
    } else {
      assert (order + [k])[1..] == order[1..] + [k];
      WeightSnoc(order[1..], k);
    }
  }

  datatype Scan = Scan(active: Dict, winner: Option<string>, changed: bool)

  // The innermost body, for the element `o` of OVERRIDES and the key `a` of `active`.
  function ScanKey(p: Scan, o: string, a: string): (r: Scan)
    requires Sound(p.active) && a in p.active.vals
    ensures Sound(r.active) && p.active.vals.Keys - {a} <= r.active.vals.Keys
    ensures Weight(r.active.order) <= Weight(p.active.order)
    ensures p.changed ==> r.changed
    ensures r.changed && !p.changed ==> Weight(r.active.order) < Weight(p.active.order)
  {
    if EndsWith(a, ":" + o) then
      var t := p.active.vals[a];
      var d := Del(p.active, a);
      var k := Replace(a, ":" + o, "");
      assert |k| < |a| by {
        assert ":" + o <= a[|a| - |o| - 1..];
        RemoveShrinks(a, ":" + o);
      }
      assert Weight(Put(d, k, t).order) <= Weight(d.order) + |k| by { WeightSnoc(d.order, k); }
      Scan(Put(d, k, t), p.winner, true)
    else if a == o then Scan(Del(p.active, a), Some(p.active.vals[a]), p.changed)
    else p
  }

  // `for a in active.copy()`
  function ScanKeys(p: Scan, o: string, todo: seq<string>): (r: Scan)
    requires Sound(p.active) && NoRepeats(todo) && forall a :: a in todo ==> a in p.active.vals
    ensures Sound(r.active) && Weight(r.active.order) <= Weight(p.active.order)
    ensures p.changed ==> r.changed
    ensures r.changed && !p.changed ==> Weight(r.active.order) < Weight(p.active.order)
    decreases |todo|
  {
    if todo == [] then p else ScanKeys(ScanKey(p, o, todo[0]), o, todo[1..])
  }

  // `for o in self.overrides`
  function Pass(p: Scan, overrides: seq<string>): (r: Scan)
    requires Sound(p.active)
    ensures Sound(r.active) && Weight(r.active.order) <= Weight(p.active.order)
    ensures p.changed ==> r.changed
    ensures r.changed && !p.changed ==> Weight(r.active.order) < Weight(p.active.order)
    decreases |overrides|
  {
    if overrides == [] then p else Pass(ScanKeys(p, overrides[0], p.active.order), overrides[1..])
  }

  // `while mod`
  function Walk(active: Dict, winner: Option<string>, overrides: seq<string>): Option<string>
    requires Sound(active)
    decreases Weight(active.order)
  {
    var r := Pass(Scan(active, winner, false), overrides);
    if r.changed then Walk(r.active, r.winner, overrides) else r.winner
  }

  // Does the override apply: is it, or are all its segments, in OVERRIDES?
  predicate Applies(cond: string, overrides: seq<string>) {
    cond in overrides || (':' in cond && forall s :: s in Split(cond, ':') ==> s in overrides)
  }

  function Collect(active: Dict, records: seq<Record>, overrides: seq<string>): (r: Dict)
    requires Sound(active)
    ensures Sound(r)
    decreases |records|
  {
    if records == [] then active
    else
      var r := records[0];
      Collect(if Applies(r.cond, overrides) then Put(active, r.cond, r.name) else active, records[1..], overrides)
  }

  const EMPTY := Dict([], map[])

  function Chosen(records: seq<Record>, overrides: seq<string>): Option<string> {
    Walk(Collect(EMPTY, records, overrides), None, overrides)
  }

  lemma {:induction false} NothingToChoose(overrides: seq<string>)
    ensures Chosen([], overrides) == None
  {
    PassOverNothing(overrides);
  }

  lemma {:induction false} PassOverNothing(overrides: seq<string>)
    ensures Pass(Scan(EMPTY, None, false), overrides) == Scan(EMPTY, None, false)
  {
    if overrides != [] {
      PassOverNothing(overrides[1..]);
    }
  }

  // The program's loops, from the innermost to the outermost.

  method StripSegment(active0: Dict, winner0: Option<string>, changed0: bool, o: string)
    returns (active: Dict, winner: Option<string>, changed: bool)
    requires Sound(active0)
    ensures Scan(active, winner, changed) == ScanKeys(Scan(active0, winner0, changed0), o, active0.order)
  {
    active, winner, changed := active0, winner0, changed0;
    var copy := active.order;
    for j := 0 to |copy|
      invariant Sound(active) && forall i :: j <= i < |copy| ==> copy[i] in active.vals
      invariant ScanKeys(Scan(active, winner, changed), o, copy[j..]) ==
        ScanKeys(Scan(active0, winner0, changed0), o, copy)
    {
      var a := copy[j];
      ghost var before := Scan(active, winner, changed);
      assert copy[j..][0] == a && copy[j..][1..] == copy[j + 1..];
      if EndsWith(a, ":" + o) {
        var t := active.vals[a];
        active := Del(active, a);
        active := Put(active, Replace(a, ":" + o, ""), t);
        changed := true;
      } else if a == o {
        winner := Some(active.vals[a]);
        active := Del(active, a);
      }
      assert Scan(active, winner, changed) == ScanKey(before, o, a);
    }
    assert copy[|copy|..] == [];
  }

  method WalkOverrides(active0: Dict, winner0: Option<string>, overrides: seq<string>)
    returns (active: Dict, winner: Option<string>, changed: bool)
    requires Sound(active0)
    ensures Scan(active, winner, changed) == Pass(Scan(active0, winner0, false), overrides)
  {
    active, winner, changed := active0, winner0, false;
    for i := 0 to |overrides|
      invariant Sound(active)
      invariant Pass(Scan(active, winner, changed), overrides[i..]) == Pass(Scan(active0, winner0, false), overrides)
    {
      assert overrides[i..][0] == overrides[i] && overrides[i..][1..] == overrides[i + 1..];
      active, winner, changed := StripSegment(active, winner, changed, overrides[i]);
    }
    assert overrides[|overrides|..] == [];
  }

  method Choose(records: seq<Record>, overrides: seq<string>) returns (winner: Option<string>)
    ensures winner == Chosen(records, overrides)
  {
    var active := EMPTY;
    for i := 0 to |records|
      invariant Sound(active)
      invariant Collect(active, records[i..], overrides) == Collect(EMPTY, records, overrides)
    {
      var r := records[i];
      assert records[i..][0] == r && records[i..][1..] == records[i + 1..];
      if Applies(r.cond, overrides) {
        active := Put(active, r.cond, r.name);
      }
    }
    winner := None;
    var changed := true;
    while changed
      invariant Sound(active)
      invariant Chosen(records, overrides) == if changed then Walk(active, winner, overrides) else winner
      decreases if changed then 1 + Weight(active.order) else 0
    {
      active, winner, changed := WalkOverrides(active, winner, overrides);
    }
  }
}
