// The keys of a datastore (data_smart.py:1026-1061) and what they have to do with reading.
module StoreKeys {
  import opened Prelude
  import opened Text
  import opened OverrideScan
  import opened Expansion
  import opened EvalSteps
  import opened StoreOps
  import opened StoreLaws
  import opened StoreRename

  // Some recorded variant is active.
  predicate HasActive(records: seq<Record>, overrides: seq<string>) {
    exists r :: r in records && Applies(r.cond, overrides)
  }

  // The flags are not empty, or some variant is active.
  predicate IsKey(st: Store, overrides: seq<string>, v: string) {
    FlagsOf(st, v) != NO_FLAGS || HasActive(RecordsOf(st, v), overrides)
  }

  lemma {:induction false} ActiveNamesFound(records: seq<Record>, overrides: seq<string>)
    ensures ActiveNames(records, overrides) != [] <==> HasActive(records, overrides)
    decreases |records|
  {
    if records != [] {
      ActiveNamesFound(records[1..], overrides);
      assert records == [records[0]] + records[1..];
    }
  }

  lemma {:induction false} CollectsNothing(records: seq<Record>, overrides: seq<string>)
    requires !HasActive(records, overrides)
    ensures Collect(EMPTY, records, overrides) == EMPTY
    decreases |records|
  {
    if records != [] {
      assert records[0] in records && forall r :: r in records[1..] ==> r in records;
      CollectsNothing(records[1..], overrides);
    }
  }

  // What is not a key reads as nothing, expanded or not.
  lemma {:induction false} OnlyKeysRead(st: Store, overrides: seq<string>, v: string, e: Entry)
    requires Reads(st, overrides, v, e) && !IsKey(st, overrides, v)
    ensures e == NOTHING
  {
    CollectsNothing(RecordsOf(st, v), overrides);
    PassOverNothing(overrides);
    assert Chosen(RecordsOf(st, v), overrides) == None;
    assert ActiveTexts([], overrides) == {};
    var n: nat :| Eval(st, overrides, n, v) == Ok(e);
    assert EvalVariant(st, overrides, n - 1, None) == Ok(NOTHING);
    assert RawFrom(NO_FLAGS, None, overrides) == None;
    assert ExpandOption(st, overrides, n - 1, v, None) == Ok((None, {}));
    assert EvalFrom(st, overrides, n - 1, v, NOTHING) == Ok(NOTHING);
  }

  // Writing makes a key and deleting unmakes it, under any overrides.
  lemma {:induction false} WritesMakeKeys(st: Store, v: string, text: string, parsing: bool, used: seq<string>,
                                          overrides: seq<string>)
    requires ParseName(v).None?
    ensures IsKey(AfterSetVar(st, v, text, parsing, used), overrides, v)
    ensures !IsKey(AfterDel(st, v), overrides, v)
  {
    GoneAfterDel(st, v);
  }
}
