// The choice of a variant does not look at the names of the variants (data_smart.py:789-819).
module OverrideNames {
  import opened Prelude
  import opened Text
  import opened OverrideScan

  // `m` gives each name in one dictionary the name in its place in the other.
  ghost predicate Renames(d: Dict, d': Dict, m: map<string, string>) {
    && d'.order == d.order && d'.vals.Keys == d.vals.Keys
    && forall k :: k in d.vals ==> d.vals[k] in m && d'.vals[k] == m[d.vals[k]]
  }

  ghost predicate RenamesWinner(w: Option<string>, w': Option<string>, m: map<string, string>) {
    if w.None? then w'.None? else w.value in m && w' == Some(m[w.value])
  }

  ghost predicate RenamesScan(p: Scan, p': Scan, m: map<string, string>) {
    Renames(p.active, p'.active, m) && RenamesWinner(p.winner, p'.winner, m) && p.changed == p'.changed
  }

  lemma {:induction false} ScanKeyRenames(p: Scan, p': Scan, m: map<string, string>, o: string, a: string)
    requires Sound(p.active) && Sound(p'.active) && RenamesScan(p, p', m) && a in p.active.vals
    ensures a in p'.active.vals && RenamesScan(ScanKey(p, o, a), ScanKey(p', o, a), m)
  {
    hide Replace, EndsWith, Without, Sound, Weight;
  }

  lemma {:induction false} ScanKeysRename(p: Scan, p': Scan, m: map<string, string>, o: string, todo: seq<string>)
    requires Sound(p.active) && Sound(p'.active) && RenamesScan(p, p', m)
    requires NoRepeats(todo) && forall a :: a in todo ==> a in p.active.vals
    ensures RenamesScan(ScanKeys(p, o, todo), ScanKeys(p', o, todo), m)
    decreases |todo|
  {
    hide RenamesScan, ScanKey;
    if todo != [] {
      ScanKeyRenames(p, p', m, o, todo[0]);
      assert forall a :: a in todo[1..] ==> a in p.active.vals.Keys - {todo[0]};
      ScanKeysRename(ScanKey(p, o, todo[0]), ScanKey(p', o, todo[0]), m, o, todo[1..]);
    }
  }

  lemma {:induction false} PassRenames(p: Scan, p': Scan, m: map<string, string>, overrides: seq<string>)
    requires Sound(p.active) && Sound(p'.active) && RenamesScan(p, p', m)
    ensures RenamesScan(Pass(p, overrides), Pass(p', overrides), m)
    decreases |overrides|
  {
    if overrides != [] {
      ScanKeysRename(p, p', m, overrides[0], p.active.order);
      PassRenames(ScanKeys(p, overrides[0], p.active.order), ScanKeys(p', overrides[0], p'.active.order), m,
        overrides[1..]);
    }
  }

  lemma {:induction false} WalkRenames(active: Dict, active': Dict, winner: Option<string>, winner': Option<string>,
                                       m: map<string, string>, overrides: seq<string>)
    requires Sound(active) && Sound(active') && Renames(active, active', m) && RenamesWinner(winner, winner', m)
    ensures RenamesWinner(Walk(active, winner, overrides), Walk(active', winner', overrides), m)
    decreases Weight(active.order)
  {
    PassRenames(Scan(active, winner, false), Scan(active', winner', false), m, overrides);
    var r, r' := Pass(Scan(active, winner, false), overrides), Pass(Scan(active', winner', false), overrides);
    if r.changed {
      WalkRenames(r.active, r'.active, r.winner, r'.winner, m, overrides);
    }
  }

  // What is chosen is the name of some record.
  lemma {:induction false} CollectedAreRecorded(active: Dict, records: seq<Record>, m: map<string, string>,
                                                overrides: seq<string>)
    requires Sound(active) && Renames(active, active, m)
    requires forall r :: r in records ==> r.name in m && m[r.name] == r.name
    ensures Renames(Collect(active, records, overrides), Collect(active, records, overrides), m)
    decreases |records|
  {
    if records != [] {
      var r := records[0];
      assert r in records && forall q :: q in records[1..] ==> q in records;
      CollectedAreRecorded(if Applies(r.cond, overrides) then Put(active, r.cond, r.name)
        else active, records[1..], m, overrides);
    }
  }

  lemma {:induction false} ChosenIsRecorded(records: seq<Record>, overrides: seq<string>)
    ensures var x := Chosen(records, overrides); x.Some? ==> exists r :: r in records && r.name == x.value
  {
    var names := set r | r in records :: r.name;
    var m := map n | n in names :: n;
    var active := Collect(EMPTY, records, overrides);
    CollectedAreRecorded(EMPTY, records, m, overrides);
    WalkRenames(active, active, None, None, m, overrides);
  }
}
