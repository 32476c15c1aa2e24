// The copy-on-write dictionary behind the history of variables (COW.py:33-127; data_smart.py:248-253,
// 265-302): a copy finds the lists of its ancestors until it asks for one of them to change.
module CopyOnWrite {
  import opened Prelude

  type LogEntry = string

  // What is stored under the key itself: an immutable value, or the mark of a deletion.
  datatype Plain = Deleted | Immutable(value: string)

  datatype Found = Missing | Value(value: string) | List(items: seq<LogEntry>)

  function Others(items: seq<LogEntry>, gone: set<LogEntry>): seq<LogEntry> {
    if items == [] then [] else (if items[0] in gone then [] else [items[0]]) + Others(items[1..], gone)
  }

  // The entries that are left are those that are not gone, in their order.
  lemma {:induction false} OthersStay(before: seq<LogEntry>, x: LogEntry, after: seq<LogEntry>, gone: set<LogEntry>)
    ensures Others(before + [x] + after, gone) ==
      Others(before, gone) + (if x in gone then [] else [x]) + Others(after, gone)
  {
    var all := before + [x] + after;
    if before != [] {
      assert all[0] == before[0] && all[1..] == before[1..] + [x] + after;
      OthersStay(before[1..], x, after, gone);
    } else {
      assert all[0] == x && all[1..] == after;
    }
  }

  class CowDict {
    const parent: CowDict?
    var plain: map<string, Plain>
    var lists: map<string, PyList<LogEntry>>    // stored under the key with "__mutable__" behind it
    ghost const ancestors: set<CowDict>

    constructor (parent: CowDict?)
      requires parent != null ==> parent.Linked()
      ensures Linked() && this.parent == parent && plain == map[] && lists == map[]
      ensures ancestors == if parent == null then {} else {parent} + parent.ancestors
    {
      this.parent := parent;
      plain, lists := map[], map[];
      this.ancestors := if parent == null then {} else {parent} + parent.ancestors;
    }

    ghost predicate Linked()
      decreases ancestors
    {
      this !in ancestors &&
      if parent == null then ancestors == {}
      else parent !in parent.ancestors && ancestors == {parent} + parent.ancestors && parent.Linked()
    }

    // getattr(cls, key) and getattr(cls, key + MUTABLE): the nearest class that has it
    ghost function PlainAt(key: string): Option<Plain>
      requires Linked()
      reads this, ancestors
      decreases ancestors
    {
      if key in plain then Some(plain[key]) else if parent == null then None else parent.PlainAt(key)
    }

    ghost function ListAt(key: string): (l: Option<PyList<LogEntry>>)
      requires Linked()
      reads this, ancestors
      decreases ancestors
    {
      if key in lists then Some(lists[key]) else if parent == null then None else parent.ListAt(key)
    }

    ghost function ListSet(key: string): set<object>
      requires Linked()
      reads this, ancestors
    {
      if ListAt(key).Some? then {ListAt(key).value} else {}
    }

    // What `cls[key]` shows.
    ghost function Get(key: string): Found
      requires Linked()
      reads this, ancestors, ListSet(key)
    {
      match PlainAt(key)
      case Some(Deleted) => Missing
      case Some(Immutable(v)) => Value(v)
      case None => match ListAt(key)
        case Some(l) => List(l.items)
        case None => Missing
    }

    // All lists of this class and its ancestors.
    ghost function AllLists(): set<PyList<LogEntry>>
      requires Linked()
      reads this, ancestors
      decreases ancestors
    {
      lists.Values + if parent == null then {} else parent.AllLists()
    }

    function OwnLists(): set<object>
      reads this
    {
      set k | k in lists :: lists[k]
    }

    // Every list here belongs to one key only, and to no ancestor.
    ghost predicate Valid()
      reads this, ancestors
    {
      && Linked()
      && (forall k, l :: k in lists && l in lists && lists[k] == lists[l] ==> k == l)
      && (parent != null ==> lists.Values !! parent.AllLists())
    }

    lemma AllAllocated()
      requires Linked()
      ensures forall l :: l in AllLists() ==> allocated(l)
      ensures forall k :: ListAt(k).Some? ==> ListAt(k).value in AllLists()
      decreases ancestors
    {
      if parent != null {
        parent.AllAllocated();
      }
    }

    lemma FoundAmongAll(key: string)
      requires Linked()
      ensures ListAt(key).Some? ==> ListAt(key).value in AllLists()
      decreases ancestors
    {
      if key !in lists && parent != null {
        parent.FoundAmongAll(key);
      }
    }

    method FindPlain(key: string) returns (p: Option<Plain>)
      requires Linked()
      ensures p == PlainAt(key)
    {
      var cls: CowDict? := this;
      while cls != null
        invariant cls != null ==> cls.Linked()
        invariant PlainAt(key) == if cls == null then None else cls.PlainAt(key)
        decreases if cls == null then {} else {cls} + cls.ancestors
      {
        if key in cls.plain {
          return Some(cls.plain[key]);
        }
        cls := cls.parent;
      }
      return None;
    }

    method FindList(key: string) returns (l: Option<PyList<LogEntry>>)
      requires Linked()
      ensures l == ListAt(key)
    {
      var cls: CowDict? := this;
      while cls != null
        invariant cls != null ==> cls.Linked()
        invariant ListAt(key) == if cls == null then None else cls.ListAt(key)
        decreases if cls == null then {} else {cls} + cls.ancestors
      {
        if key in cls.lists {
          return Some(cls.lists[key]);
        }
        cls := cls.parent;
      }
      return None;
    }

    // `__getreadonly__`
    method GetReadonly(key: string) returns (r: Found)
      requires Linked()
      ensures r == Get(key)
    {
      var p := FindPlain(key);
      if p.Some? {
        return if p.value.Deleted? then Missing else Value(p.value.value);
      }
      var l := FindList(key);
      return if l.Some? then List(l.value.items) else Missing;
    }

    // `__getmutable__`: a list of this class itself; one of an ancestor is copied first
    method GetMutable(key: string) returns (l: Option<PyList<LogEntry>>)
      requires Linked()
      modifies this`lists
      ensures plain == old(plain) && (forall k :: Get(k) == old(Get(k))) && (old(Valid()) ==> Valid())
      ensures l.None? <==> old(ListAt(key)) == None
      ensures l.Some? ==> key in lists && lists[key] == l.value && l.value.items == old(ListAt(key).value.items)
      ensures lists == old(lists) || (key !in old(lists) && l.Some? && fresh(l.value)
        && lists == old(lists)[key := l.value])
    {
      ghost var all := AllLists();
      AllAllocated();
      if key in lists {
        return Some(lists[key]);
      }
      var value := FindList(key);
      if value.None? {
        forall k ensures Get(k) == old(Get(k)) {
          assert PlainAt(k) == old(PlainAt(k)) && ListAt(k) == old(ListAt(k));
        }
        return None;
      }
      assert value.value in all;
      var copy := new PyList(value.value.items);
      assert copy !in all;
      lists := lists[key := copy];
      forall k ensures Get(k) == old(Get(k)) {
        assert PlainAt(k) == old(PlainAt(k));
        assert k != key ==> ListAt(k) == old(ListAt(k));
      }
      return Some(copy);
    }

    // `__setitem__` with a new list
    method SetList(key: string, l: PyList<LogEntry>)
      requires Linked()
      modifies this`lists
      ensures plain == old(plain) && lists == old(lists)[key := l] && (old(Valid() && l !in AllLists()) ==> Valid())
      ensures Get(key) == if PlainAt(key) == None then List(l.items) else old(Get(key))
      ensures forall k :: k != key ==> Get(k) == old(Get(k))
    {
      lists := lists[key := l];
      forall k | k != key ensures Get(k) == old(Get(k)) {
        assert ListAt(k) == old(ListAt(k));
      }
    }

    // `__delitem__`, and `__setitem__` with an immutable value
    method SetPlain(key: string, p: Plain)
      requires Linked()
      modifies this`plain
      ensures lists == old(lists) && plain == old(plain)[key := p]
      ensures Get(key) == if p.Deleted? then Missing else Value(p.value)
      ensures forall k :: k != key ==> Get(k) == old(Get(k))
    {
      plain := plain[key := p];
      forall k | k != key ensures Get(k) == old(Get(k)) {
        assert PlainAt(k) == old(PlainAt(k)) && ListAt(k) == old(ListAt(k));
      }
    }

    // `cow`: the copy shows what this dictionary shows.
    method Copy() returns (copy: CowDict)
      requires Linked()
      ensures fresh(copy) && copy.Valid() && copy.parent == this && copy.lists == map[] && copy.plain == map[]
      ensures forall k :: copy.Get(k) == Get(k)
    {
      copy := new CowDict(this);
      forall k ensures copy.Get(k) == Get(k) {
        assert copy.PlainAt(k) == PlainAt(k) && copy.ListAt(k) == ListAt(k);
      }
    }

    // `VariableHistory.record`: one more entry in the history of a variable. Histories are lists and
    // are never deleted.
    method Record(variable: string, entry: LogEntry)
      requires Linked() && PlainAt(variable) == None
      modifies this`lists, OwnLists()
      ensures plain == old(plain) && Get(variable) == List(old(History(variable)) + [entry])
      ensures old(Valid()) ==> Valid() && forall k :: k != variable ==> Get(k) == old(Get(k))
      ensures fresh(OwnLists() - old(OwnLists()))
    {
      EnsureList(variable);
      AddEntry(variable, entry);
    }

    // `self.variables[var].append(entry)`
    method AddEntry(variable: string, entry: LogEntry)
      requires Linked() && PlainAt(variable) == None && ListAt(variable).Some?
      modifies this`lists, OwnLists()
      ensures plain == old(plain) && PlainAt(variable) == None && ListAt(variable).Some?
      ensures History(variable) == old(History(variable)) + [entry]
      ensures old(Valid()) ==> Valid() && forall k :: k != variable ==> Get(k) == old(Get(k))
      ensures fresh(OwnLists() - old(OwnLists()))
    {
      var history := GetMutable(variable);
      AppendTo(variable, history.value, entry);
    }

    // `if var not in self.variables: self.variables[var] = []`
    method EnsureList(variable: string)
      requires Linked() && PlainAt(variable) == None
      modifies this`lists
      ensures plain == old(plain) && (old(Valid()) ==> Valid())
      ensures PlainAt(variable) == None && ListAt(variable).Some?
        && ListAt(variable).value.items == old(History(variable))
      ensures forall k :: k != variable ==> Get(k) == old(Get(k))
      ensures fresh(OwnLists() - old(OwnLists()))
    {
      AllAllocated();
      ghost var all := AllLists();
      var l := FindList(variable);
      if l.None? {
        var empty := new PyList([]);
        assert AllLists() == all && empty !in all;
        SetList(variable, empty);
      } else {
        forall k ensures Get(k) == old(Get(k)) {
          assert PlainAt(k) == old(PlainAt(k)) && ListAt(k) == old(ListAt(k));
        }
      }
    }

    method RecordUnlessPlain(variable: string, entry: LogEntry)
      requires Linked()
      modifies this`lists, OwnLists()
      ensures plain == old(plain) && fresh(OwnLists() - old(OwnLists()))
    {
      var p := FindPlain(variable);
      if p.None? {
        Record(variable, entry);
      }
    }

    // `rename_variable_hist`: the history of one variable goes behind that of another.
    method RenameHistory(oldvar: string, newvar: string)
      requires Linked() && PlainAt(oldvar) == None && PlainAt(newvar) == None && oldvar != newvar
      modifies this`lists, OwnLists()
      ensures plain == old(plain) && fresh(OwnLists() - old(OwnLists()))
      ensures old(Valid()) ==> Valid() && forall k :: k != newvar ==> Get(k) == old(Get(k))
      ensures Get(newvar) == if old(ListAt(oldvar)) == None then old(Get(newvar))
        else List(old(History(newvar)) + old(History(oldvar)))
    {
      hide AllLists, Valid;
      AllAllocated();
      var found := FindList(oldvar);
      if found.None? {
        forall k ensures Get(k) == old(Get(k)) {
          assert PlainAt(k) == old(PlainAt(k)) && ListAt(k) == old(ListAt(k));
        }
        return;
      }
      var items := found.value.items;
      assert PlainAt(newvar) == old(PlainAt(newvar)) && ListAt(newvar) == old(ListAt(newvar));
      EnsureList(newvar);
      AddEntries(newvar, items);
    }

    // The loop over the entries of the other history.
    method AddEntries(variable: string, items: seq<LogEntry>)
      requires Linked() && PlainAt(variable) == None && ListAt(variable).Some?
      modifies this`lists, OwnLists()
      ensures plain == old(plain) && PlainAt(variable) == None && ListAt(variable).Some?
      ensures History(variable) == old(History(variable)) + items
      ensures old(Valid()) ==> Valid() && forall k :: k != variable ==> Get(k) == old(Get(k))
      ensures fresh(OwnLists() - old(OwnLists()))
    {
      for i := 0 to |items|
        invariant plain == old(plain) && PlainAt(variable) == None && ListAt(variable).Some?
        invariant fresh(OwnLists() - old(OwnLists()))
        invariant old(Valid()) ==> Valid() && forall k :: k != variable ==> Get(k) == old(Get(k))
        invariant History(variable) == old(History(variable)) + items[..i]
      {
        AddEntry(variable, items[i]);
        assert items[..i + 1] == items[..i] + [items[i]];
      }
      assert items[..|items|] == items;
    }

    // `del_var_history`: a new list takes the place of the history, empty or without some entries.
    method ForgetHistory(variable: string, gone: Option<set<LogEntry>>)
      requires Linked() && PlainAt(variable) == None
      modifies this`lists
      ensures plain == old(plain) && fresh(OwnLists() - old(OwnLists()))
      ensures old(Valid()) ==> Valid()
      ensures forall k :: k != variable ==> Get(k) == old(Get(k))
      ensures Get(variable) == if old(ListAt(variable)) == None then Missing
        else List(if gone.None? then [] else Others(old(History(variable)), gone.value))
    {
      hide AllLists, Valid, ListAt;
      AllAllocated();
      ghost var all := AllLists();
      var l := FindList(variable);
      if l.Some? {
        var rest := new PyList(if gone.None? then [] else Others(l.value.items, gone.value));
        assert AllLists() == all && rest !in all;
        SetList(variable, rest);
      }
    }

    // The two on any variable; histories are never plain values.
    method RenameUnlessPlain(oldvar: string, newvar: string)
      requires Linked()
      modifies this`lists, OwnLists()
      ensures plain == old(plain) && fresh(OwnLists() - old(OwnLists()))
    {
      var p := FindPlain(oldvar);
      var q := FindPlain(newvar);
      if p.None? && q.None? && oldvar != newvar {
        RenameHistory(oldvar, newvar);
      }
    }

    method ForgetUnlessPlain(variable: string, gone: Option<set<LogEntry>>)
      requires Linked()
      modifies this`lists
      ensures plain == old(plain) && fresh(OwnLists() - old(OwnLists()))
    {
      var p := FindPlain(variable);
      if p.None? {
        ForgetHistory(variable, gone);
      }
    }

    ghost function History(variable: string): seq<LogEntry>
      requires Linked()
      reads this, ancestors, ListSet(variable)
    {
      if ListAt(variable).Some? then ListAt(variable).value.items else []
    }

    method AppendTo(variable: string, l: PyList<LogEntry>, entry: LogEntry)
      requires Linked() && PlainAt(variable) == None && variable in lists && lists[variable] == l
      modifies l
      ensures Get(variable) == List(old(l.items) + [entry])
      ensures old(Valid()) ==> Valid() && forall k :: k != variable ==> Get(k) == old(Get(k))
    {
      AllAllocated();
      if Valid() {
        forall k | k != variable ensures ListAt(k) != Some(l) {
          if k !in lists && parent != null {
            parent.FoundAmongAll(k);
          }
        }
      }
      l.Append(entry);
      if old(Valid()) {
        forall k | k != variable ensures Get(k) == old(Get(k)) {
          assert PlainAt(k) == old(PlainAt(k)) && ListAt(k) == old(ListAt(k));
        }
      }
    }
  }

  datatype Step =
    | RecordOn(index: nat, variable: string, entry: LogEntry)
    | RenameOn(index: nat, oldvar: string, newvar: string)
    | ForgetOn(index: nat, variable: string, gone: Option<set<LogEntry>>)
    | DeleteOn(index: nat, variable: string)
    | CopyOf(index: nat)

  // Any script on copies, and on copies of copies: the parent keeps all its entries.
  method RunOnCopies(parent: CowDict, script: seq<Step>) returns (copies: seq<CowDict>)
    requires parent.Linked()
    ensures forall k :: parent.Get(k) == old(parent.Get(k))
    ensures unchanged(parent)
  {
    parent.AllAllocated();
    var first := parent.Copy();
    copies := [first];
    ghost var mine: set<object> := {};
    for i := 0 to |script|
      invariant copies != [] && fresh(mine)
      invariant forall c :: c in copies ==> fresh(c) && c.Linked() && c.OwnLists() <= mine
    {
      var c := copies[script[i].index % |copies|];
      assert c in copies && fresh(c) && c.OwnLists() <= mine;
      match script[i]
      case RecordOn(_, variable, entry) =>
        c.RecordUnlessPlain(variable, entry);
        mine := mine + c.OwnLists();
      case RenameOn(_, oldvar, newvar) =>
        c.RenameUnlessPlain(oldvar, newvar);
        mine := mine + c.OwnLists();
      case ForgetOn(_, variable, gone) =>
        c.ForgetUnlessPlain(variable, gone);
        mine := mine + c.OwnLists();
      case DeleteOn(_, variable) =>
        c.SetPlain(variable, Deleted);
      case CopyOf(_) =>
        var more := c.Copy();
        copies := copies + [more];
    }
    forall k ensures parent.Get(k) == old(parent.Get(k)) {
      assert parent.PlainAt(k) == old(parent.PlainAt(k)) && parent.ListAt(k) == old(parent.ListAt(k));
    }
  }
}
