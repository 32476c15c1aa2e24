// The recipe cache (cache.py:465-713): is a file's entry still valid, which entries are there to be
// loaded, and the files on disk.
module RecipeCache {
  import opened Prelude
  import opened VirtualNames

  // What is kept of a recipe: the core information, on which validity rests, and further kinds.
  datatype Info =
    | Core(timestamp: int, fileDepends: seq<(string, int)>, checksums: seq<(string, bool)>, appends: seq<string>,
      variants: seq<string>)
    | Extra(classname: string, content: string)

  function ClassOf(info: Info): string {
    if info.Core? then "CoreRecipeInfo" else info.classname
  }

  // The files on disk: time stamps, 0 for a file that is not there, and what exists.
  datatype Disk = Disk(mtimes: map<string, int>, existing: set<string>)

  function Mtime(disk: Disk, f: string): int {
    if f in disk.mtimes then disk.mtimes[f] else 0
  }

  type Entries = map<string, seq<Info>>

  datatype State = State(dependsCache: Entries, clean: set<string>, checked: set<string>)

  datatype KeyError = KeyError(key: string)

  // ----- checking -----

  predicate DependsMatch(disk: Disk, depends: seq<(string, int)>) {
    forall i :: 0 <= i < |depends| ==> Mtime(disk, depends[i].0) == depends[i].1
  }

  predicate ChecksumsMatch(disk: Disk, checksums: seq<(string, bool)>) {
    forall i :: 0 <= i < |checksums| ==> (checksums[i].0 in disk.existing <==> checksums[i].1)
  }

  predicate UpToDate(disk: Disk, fn: string, appends: seq<string>, info: Info)
    requires info.Core?
  {
    && Mtime(disk, fn) != 0 && Mtime(disk, fn) == info.timestamp
    && DependsMatch(disk, info.fileDepends) && ChecksumsMatch(disk, info.checksums) && appends == info.appends
  }

  predicate Typed(c: Entries) {
    forall k :: k in c ==> c[k] != [] && c[k][0].Core?
  }

  function VariantsOf(c: Entries, fn: string): seq<string>
    requires Typed(c) && fn in c
  {
    c[fn][0].variants
  }

  function Names(fn: string, variants: seq<string>): set<string> {
    set v | v in variants :: Variant(fn, v)
  }

  // Every variant of `fn` is there with one info per cache class.
  predicate Complete(c: Entries, classes: nat, fn: string)
    requires Typed(c) && fn in c
  {
    forall v :: v in VariantsOf(c, fn) ==> IsWhole(c, classes, Variant(fn, v))
  }

  predicate IsWhole(c: Entries, classes: nat, name: string) {
    name in c && |c[name]| == classes
  }

  function AfterRemove(c: State, fn: string): State {
    c.(dependsCache := c.dependsCache - {fn}, clean := c.clean - {fn})
  }

  // `cacheValidUpdate`
  function AfterUpdate(c: State, disk: Disk, classes: nat, fn: string, appends: seq<string>): (State, bool)
    requires Typed(c.dependsCache)
  {
    var now := c.(checked := c.checked + {fn});
    if fn !in c.dependsCache then (now, false)
    else if !UpToDate(disk, fn, appends, c.dependsCache[fn][0]) then (AfterRemove(now, fn), false)
    else
      var names := Names(fn, VariantsOf(c.dependsCache, fn));
      if Complete(c.dependsCache, classes, fn) then (now.(clean := c.clean + names + {fn}), true)
      else (now.(clean := c.clean - names - {fn}), false)
  }

  // `cacheValid`
  function AfterCheck(c: State, disk: Disk, classes: nat, fn: string, appends: seq<string>): (State, bool)
    requires Typed(c.dependsCache)
  {
    if fn in c.checked then (c, fn in c.clean)
    else
      var next := AfterUpdate(c, disk, classes, fn, appends).0;
      (next, fn in next.clean)
  }

  // `loadCached`
  function Loaded(c: Entries, fn: string, variants: seq<string>): Result<seq<(string, seq<Info>)>, KeyError> {
    if variants == [] then Ok([])
    else
      var name := Variant(fn, variants[0]);
      if name !in c then Err(KeyError(name))
      else match Loaded(c, fn, variants[1..])
        case Err(e) => Err(e)
        case Ok(rest) => Ok([(name, c[name])] + rest)
  }

  // ----- what a positive check is worth -----

  // Recipe files; only names of variants hold a colon.
  predicate IsFile(fn: string) {
    ':' !in fn
  }

  // Each check finds the disk as it is then.
  datatype Event =
    | Check(fn: string, appends: seq<string>, disk: Disk)
    | Remove(fn: string)
    | AddInfo(fn: string, variant: string, infos: seq<Info>)

  predicate Enabled(c: State, classes: nat, e: Event) {
    && IsFile(e.fn)
    && (e.AddInfo? ==>
        && ValidVariant(e.variant) && |e.infos| == classes > 0 && e.infos[0].Core?
        && (forall v :: v in e.infos[0].variants ==> ValidVariant(v))
        && var name := Variant(e.fn, e.variant);
           e.fn in c.clean ==> name in c.dependsCache && c.dependsCache[name] == e.infos)
  }

  function After(c: State, classes: nat, e: Event): State
    requires Typed(c.dependsCache) && Enabled(c, classes, e)
  {
    match e
    case Check(fn, appends, disk) => AfterCheck(c, disk, classes, fn, appends).0
    case Remove(fn) => AfterRemove(c, fn)
    case AddInfo(fn, variant, infos) => c.(dependsCache := c.dependsCache[Variant(fn, variant) := infos])
  }

  // What holds in every state: a file that is marked clean can be loaded completely.
  predicate Inv(c: State, classes: nat) {
    && Typed(c.dependsCache)
    && (forall k, v :: k in c.dependsCache && v in VariantsOf(c.dependsCache, k) ==> ValidVariant(v))
    && (forall fn :: fn in c.clean && IsFile(fn) ==> fn in c.dependsCache && Complete(c.dependsCache, classes, fn))
  }

  lemma {:induction false} VariantOrFile(fn: string, variant: string)
    ensures variant != "" ==> !IsFile(Variant(fn, variant))
    ensures Variant(fn, "") == fn
  {
    if variant != "" {
      if HasMulticonfig(variant) {
        assert Variant(fn, variant)[2] == ':';
      } else {
        assert Variant(fn, variant)[7] == ':';
      }
    }
  }

  // A file is no variant of another file.
  lemma {:induction false} FilesAreNoVariants(fn: string, variants: seq<string>)
    ensures forall g :: g in Names(fn, variants) && IsFile(g) ==> g == fn
  {
    forall v | v in variants && IsFile(Variant(fn, v)) ensures Variant(fn, v) == fn {
      VariantOrFile(fn, v);
    }
  }

  lemma {:induction false} RemoveKeeps(c: State, classes: nat, fn: string)
    requires Inv(c, classes) && IsFile(fn)
    ensures Inv(AfterRemove(c, fn), classes)
    ensures forall h :: h != fn ==> (h in c.clean <==> h in AfterRemove(c, fn).clean)
  {
    hide Variant;
    var next := AfterRemove(c, fn).dependsCache;
    forall h | h in c.clean && h != fn && IsFile(h) ensures Complete(next, classes, h) {
      forall v | v in VariantsOf(next, h) ensures IsWhole(next, classes, Variant(h, v)) {
        assert v in VariantsOf(c.dependsCache, h) && IsWhole(c.dependsCache, classes, Variant(h, v));
        VariantOrFile(h, v);
      }
    }
  }

  lemma {:induction false} CheckKeeps(c: State, disk: Disk, classes: nat, fn: string, appends: seq<string>)
    requires Inv(c, classes) && IsFile(fn)
    ensures Inv(AfterCheck(c, disk, classes, fn, appends).0, classes)
    ensures forall h :: h != fn && IsFile(h) ==>
      (h in c.clean <==> h in AfterCheck(c, disk, classes, fn, appends).0.clean)
  {
    hide Variant;
    if fn !in c.checked && fn in c.dependsCache {
      var now := c.(checked := c.checked + {fn});
      RemoveKeeps(now, classes, fn);
      FilesAreNoVariants(fn, VariantsOf(c.dependsCache, fn));
    }
  }

  lemma {:induction false} AddKeeps(c: State, classes: nat, e: Event)
    requires Inv(c, classes) && Enabled(c, classes, e) && e.AddInfo?
    ensures Inv(After(c, classes, e), classes)
  {
    hide Variant;
    var name := Variant(e.fn, e.variant);
    var next := c.dependsCache[name := e.infos];
    if e.fn in c.clean {
      assert next == c.dependsCache;
    } else {
      forall h | h in c.clean && IsFile(h) ensures h in next && Complete(next, classes, h) {
        assert h != e.fn;
        VariantOrFile(e.fn, e.variant);
        assert VariantsOf(next, h) == VariantsOf(c.dependsCache, h);
        forall v | v in VariantsOf(next, h) ensures IsWhole(next, classes, Variant(h, v)) {
          assert IsWhole(c.dependsCache, classes, Variant(h, v));
        }
      }
    }
  }

  lemma {:induction false} StepKeeps(c: State, classes: nat, e: Event)
    requires Inv(c, classes) && Enabled(c, classes, e)
    ensures Inv(After(c, classes, e), classes)
  {
    match e
    case Check(fn, appends, disk) => CheckKeeps(c, disk, classes, fn, appends);
    case Remove(fn) => RemoveKeeps(c, classes, fn);
    case AddInfo(_, _, _) => AddKeeps(c, classes, e);
  }

  // A file stays clean until it is removed itself.
  lemma {:induction false} StepKeepsClean(c: State, classes: nat, e: Event, fn: string)
    requires Inv(c, classes) && Enabled(c, classes, e) && IsFile(fn) && fn in c.clean
    requires e != Remove(fn) && (e.Check? && e.fn == fn ==> fn in c.checked)
    ensures fn in After(c, classes, e).clean
  {
    match e
    case Check(g, appends, disk) => CheckKeeps(c, disk, classes, g, appends);
    case Remove(g) => RemoveKeeps(c, classes, g);
    case AddInfo(_, _, _) =>
  }

  lemma {:induction false} StepKeepsChecked(c: State, classes: nat, e: Event)
    requires Typed(c.dependsCache) && Enabled(c, classes, e)
    ensures c.checked <= After(c, classes, e).checked
  {}

  lemma {:induction false} CompleteLoads(c: Entries, classes: nat, fn: string, variants: seq<string>)
    requires forall v :: v in variants ==> IsWhole(c, classes, Variant(fn, v))
    ensures var r := Loaded(c, fn, variants);
      r.Ok? && |r.value| == |variants| && forall i :: 0 <= i < |variants| ==>
        r.value[i].0 == Variant(fn, variants[i]) && r.value[i].0 in c && r.value[i].1 == c[r.value[i].0]
          && |r.value[i].1| == classes
  {
    if variants != [] {
      CompleteLoads(c, classes, fn, variants[1..]);
    }
  }

  ghost predicate Reaches(c: State, classes: nat, events: seq<Event>, d: State)
    requires Inv(c, classes)
    decreases |events|
  {
    if events == [] then c == d
    else (
      && Enabled(c, classes, events[0]) && Inv(After(c, classes, events[0]), classes)
      && Reaches(After(c, classes, events[0]), classes, events[1..], d))
  }

  // The entries of `fn` and of its variants.
  ghost predicate SameEntries(c: Entries, d: Entries, fn: string)
    requires Typed(c) && Typed(d) && fn in c
  {
    && fn in d && d[fn] == c[fn]
    && forall v :: v in VariantsOf(c, fn) && Variant(fn, v) in c ==>
      Variant(fn, v) in d && d[Variant(fn, v)] == c[Variant(fn, v)]
  }

  lemma {:induction false} StepKeepsEntries(c: State, classes: nat, e: Event, fn: string)
    requires Inv(c, classes) && Enabled(c, classes, e) && Inv(After(c, classes, e), classes)
    requires IsFile(fn) && fn in c.clean && e != Remove(fn) && (e.Check? && e.fn == fn ==> fn in c.checked)
    ensures SameEntries(c.dependsCache, After(c, classes, e).dependsCache, fn)
  {
    hide Variant;
    var next := After(c, classes, e).dependsCache;
    VariantOrFile(fn, "");
    assert e.AddInfo? ==> Variant(e.fn, e.variant) != fn || e.fn == fn by {
      if e.AddInfo? {
        VariantOrFile(e.fn, e.variant);
      }
    }
    forall v | v in VariantsOf(c.dependsCache, fn) && Variant(fn, v) in c.dependsCache
      ensures Variant(fn, v) in next && next[Variant(fn, v)] == c.dependsCache[Variant(fn, v)]
    {
      VariantOrFile(fn, v);
      if e.AddInfo? && Variant(e.fn, e.variant) == Variant(fn, v) {
        VariantIsInjective(e.fn, fn, e.variant, v);
      }
    }
  }

  lemma {:induction false} SameEntriesLoad(c: Entries, d: Entries, fn: string, variants: seq<string>)
    requires forall v :: v in variants ==>
      Variant(fn, v) in c && Variant(fn, v) in d && d[Variant(fn, v)] == c[Variant(fn, v)]
    ensures Loaded(d, fn, variants) == Loaded(c, fn, variants)
  {
    if variants != [] {
      SameEntriesLoad(c, d, fn, variants[1..]);
    }
  }

  // Once a file is checked and clean, all its variants can be loaded completely, with the same
  // result, whatever is checked, removed and added after that, as long as the file itself is not
  // removed.
  lemma {:induction false} CleanStaysLoadable(c: State, classes: nat, fn: string, events: seq<Event>, d: State)
    requires Inv(c, classes) && IsFile(fn) && fn in c.clean && fn in c.checked
    requires Remove(fn) !in events && Reaches(c, classes, events, d)
    ensures Inv(d, classes) && fn in d.clean && fn in d.dependsCache
    ensures var r := Loaded(d.dependsCache, fn, VariantsOf(d.dependsCache, fn));
      && r.Ok? && r == Loaded(c.dependsCache, fn, VariantsOf(c.dependsCache, fn))
      && forall x :: x in r.value ==> |x.1| == classes
    decreases |events|
  {
    if events == [] {
      CompleteLoads(d.dependsCache, classes, fn, VariantsOf(d.dependsCache, fn));
    } else {
      var next := After(c, classes, events[0]);
      StepKeepsClean(c, classes, events[0], fn);
      StepKeepsChecked(c, classes, events[0]);
      CleanStaysLoadable(next, classes, fn, events[1..], d);
      StepKeepsEntries(c, classes, events[0], fn);
      var variants := VariantsOf(c.dependsCache, fn);
      assert forall v :: v in variants ==> IsWhole(c.dependsCache, classes, Variant(fn, v));
      SameEntriesLoad(c.dependsCache, next.dependsCache, fn, variants);
    }
  }

  lemma {:induction false} CheckedIsClean(c: State, disk: Disk, classes: nat, fn: string, appends: seq<string>)
    requires Inv(c, classes) && IsFile(fn) && AfterCheck(c, disk, classes, fn, appends).1
    ensures var next := AfterCheck(c, disk, classes, fn, appends).0;
      Inv(next, classes) && fn in next.clean && fn in next.checked
  {
    CheckKeeps(c, disk, classes, fn, appends);
  }

  // ----- which files are found valid -----

  // The file and its dependencies are as old as when they were cached, 0 standing for a file that is not
  // there; the checksum files are there or not as they were; and the appends are the same.
  ghost predicate IsAsCached(disk: Disk, fn: string, appends: seq<string>, info: Info)
    requires info.Core?
  {
    && fn in disk.mtimes && disk.mtimes[fn] == info.timestamp != 0
    && (forall d :: d in info.fileDepends ==> d.1 == if d.0 in disk.mtimes then disk.mtimes[d.0] else 0)
    && (forall f :: f in info.checksums ==> (f.1 <==> f.0 in disk.existing))
    && appends == info.appends
  }

  // A file not checked yet is found valid if and only if it is cached, on disk all is as it was, and all its
  // variants are there with one info per cache class. If something on disk has changed, its entry is gone.
  lemma {:induction false} ValidIff(c: State, disk: Disk, classes: nat, fn: string, appends: seq<string>)
    requires Inv(c, classes) && IsFile(fn) && fn !in c.checked
    ensures var (next, valid) := AfterCheck(c, disk, classes, fn, appends);
      && fn in next.checked && (valid <==> fn in next.clean)
      && (valid <==>
          && fn in c.dependsCache && IsAsCached(disk, fn, appends, c.dependsCache[fn][0])
          && forall v :: v in c.dependsCache[fn][0].variants ==>
            Variant(fn, v) in c.dependsCache && |c.dependsCache[Variant(fn, v)]| == classes)
      && (fn in c.dependsCache && !IsAsCached(disk, fn, appends, c.dependsCache[fn][0]) ==>
            fn !in next.dependsCache && fn !in next.clean)
      && (fn in c.dependsCache && IsAsCached(disk, fn, appends, c.dependsCache[fn][0]) ==>
            forall v :: v in c.dependsCache[fn][0].variants ==> (valid <==> Variant(fn, v) in next.clean))
      && (forall k :: k != fn ==> (k in next.dependsCache <==> k in c.dependsCache))
      && (forall k :: k in next.dependsCache ==> next.dependsCache[k] == c.dependsCache[k])
  {
    hide Variant;
    if fn in c.dependsCache {
      var info := c.dependsCache[fn][0];
      assert forall d :: d in info.fileDepends ==> exists i :: 0 <= i < |info.fileDepends| && info.fileDepends[i] == d;
      assert forall f :: f in info.checksums ==> exists i :: 0 <= i < |info.checksums| && info.checksums[i] == f;
      assert UpToDate(disk, fn, appends, info) <==> IsAsCached(disk, fn, appends, info);
    }
  }

  // ----- the files on disk -----

  // One pickle file: the versions, then keys and infos in turn.
  datatype PickleFile = PickleFile(cacheVersion: string, bitbakeVersion: string, items: seq<(string, Info)>)

  // The cache as a dictionary in insertion order.
  type Ordered = seq<(string, seq<Info>)>

  function OfClass(infos: seq<Info>, cls: string): seq<Info> {
    if infos == [] then [] else (if ClassOf(infos[0]) == cls then [infos[0]] else []) + OfClass(infos[1..], cls)
  }

  function Paired(key: string, infos: seq<Info>): seq<(string, Info)> {
    if infos == [] then [] else [(key, infos[0])] + Paired(key, infos[1..])
  }

  // The items that `sync` writes for one class.
  function ItemsOf(entries: Ordered, cls: string): seq<(string, Info)> {
    if entries == [] then [] else Paired(entries[0].0, OfClass(entries[0].1, cls)) + ItemsOf(entries[1..], cls)
  }

  function Written(entries: Ordered, classes: seq<string>, cacheVersion: string,
                   bitbakeVersion: string): seq<PickleFile> {
    if classes == [] then [] else
      var first := PickleFile(cacheVersion, bitbakeVersion, ItemsOf(entries, classes[0]));
      [first] + Written(entries, classes[1..], cacheVersion, bitbakeVersion)
  }

  function InfosAt(c: Entries, key: string): seq<Info> {
    if key in c then c[key] else []
  }

  function LoadItems(c: Entries, items: seq<(string, Info)>): Entries
    decreases |items|
  {
    if items == [] then c else LoadItems(c[items[0].0 := InfosAt(c, items[0].0) + [items[0].1]], items[1..])
  }

  // `load_cachefile`: the files of all classes in turn, up to one of another version
  function LoadFiles(c: Entries, files: seq<PickleFile>, cacheVersion: string, bitbakeVersion: string): Entries
    decreases |files|
  {
    if files == [] || files[0].cacheVersion != cacheVersion || files[0].bitbakeVersion != bitbakeVersion then c
    else LoadFiles(LoadItems(c, files[0].items), files[1..], cacheVersion, bitbakeVersion)
  }

  // The infos under `key` among the items.
  function Under(items: seq<(string, Info)>, key: string): seq<Info> {
    if items == [] then [] else (if items[0].0 == key then [items[0].1] else []) + Under(items[1..], key)
  }

  // The infos of an array, class by class.
  function Grouped(infos: seq<Info>, classes: seq<string>): seq<Info> {
    if classes == [] then [] else OfClass(infos, classes[0]) + Grouped(infos, classes[1..])
  }

  predicate DistinctKeys(entries: Ordered) {
    forall i, j :: 0 <= i < j < |entries| ==> entries[i].0 != entries[j].0
  }

  // What the cache holds under `key`.
  function Entry(entries: Ordered, key: string): seq<Info> {
    if entries == [] then [] else if entries[0].0 == key then entries[0].1 else Entry(entries[1..], key)
  }

  lemma {:induction false} LoadItemsAdds(c: Entries, items: seq<(string, Info)>, key: string)
    ensures InfosAt(LoadItems(c, items), key) == InfosAt(c, key) + Under(items, key)
    ensures key in LoadItems(c, items) <==> key in c || Under(items, key) != []
    decreases |items|
  {
    if items != [] {
      var next := c[items[0].0 := InfosAt(c, items[0].0) + [items[0].1]];
      LoadItemsAdds(next, items[1..], key);
      var first := if items[0].0 == key then [items[0].1] else [];
      assert InfosAt(next, key) == InfosAt(c, key) + first;
      assert (InfosAt(c, key) + first) + Under(items[1..], key) == InfosAt(c, key) + (first + Under(items[1..], key));
    } else {
      assert InfosAt(c, key) + [] == InfosAt(c, key);
    }
  }

  lemma {:induction false} UnderConcat(a: seq<(string, Info)>, b: seq<(string, Info)>, key: string)
    ensures Under(a + b, key) == Under(a, key) + Under(b, key)
    decreases |a|
  {
    if a == [] {
      assert a + b == b;
    } else {
      assert (a + b)[1..] == a[1..] + b;
      UnderConcat(a[1..], b, key);
      var first := if a[0].0 == key then [a[0].1] else [];
      assert first + (Under(a[1..], key) + Under(b, key)) == (first + Under(a[1..], key)) + Under(b, key);
    }
  }

  lemma {:induction false} UnderPaired(name: string, infos: seq<Info>, key: string)
    ensures Under(Paired(name, infos), key) == if name == key then infos else []
  {
    if infos != [] {
      UnderPaired(name, infos[1..], key);
    }
  }

  lemma {:induction false} UnderItems(entries: Ordered, cls: string, key: string)
    requires DistinctKeys(entries)
    ensures Under(ItemsOf(entries, cls), key) == OfClass(Entry(entries, key), cls)
  {
    if entries != [] {
      UnderConcat(Paired(entries[0].0, OfClass(entries[0].1, cls)), ItemsOf(entries[1..], cls), key);
      UnderPaired(entries[0].0, OfClass(entries[0].1, cls), key);
      UnderItems(entries[1..], cls, key);
      if entries[0].0 == key {
        NotThere(entries[1..], key);
      }
    }
  }

  lemma {:induction false} NotThere(entries: Ordered, key: string)
    requires forall i :: 0 <= i < |entries| ==> entries[i].0 != key
    ensures Entry(entries, key) == []
  {
    if entries != [] {
      NotThere(entries[1..], key);
    }
  }

  // Loading what was written finds, under each key, the infos grouped class by class, and a key is
  // there exactly when that is not empty.
  lemma {:induction false} LoadFindsGrouped(c: Entries, entries: Ordered, classes: seq<string>, cacheVersion: string,
                                            bitbakeVersion: string, key: string)
    requires DistinctKeys(entries)
    ensures var d := LoadFiles(c, Written(entries, classes, cacheVersion, bitbakeVersion), cacheVersion,
      bitbakeVersion);
      && InfosAt(d, key) == InfosAt(c, key) + Grouped(Entry(entries, key), classes)
      && (key in d <==> key in c || Grouped(Entry(entries, key), classes) != [])
    decreases |classes|
  {
    hide LoadItems, ItemsOf, Under, OfClass, Entry;
    if classes == [] {
      assert InfosAt(c, key) + [] == InfosAt(c, key);
    } else {
      var items := ItemsOf(entries, classes[0]);
      var next := LoadItems(c, items);
      LoadItemsAdds(c, items, key);
      UnderItems(entries, classes[0], key);
      LoadFindsGrouped(next, entries, classes[1..], cacheVersion, bitbakeVersion, key);
      var infos := Entry(entries, key);
      assert InfosAt(c, key) + OfClass(infos, classes[0]) + Grouped(infos, classes[1..])
          == InfosAt(c, key) + (OfClass(infos, classes[0]) + Grouped(infos, classes[1..]));
    }
  }

  // At a file of another version loading ends.
  lemma {:induction false} OtherVersionEnds(c: Entries, before: seq<PickleFile>, file: PickleFile,
                                            after: seq<PickleFile>, cacheVersion: string, bitbakeVersion: string)
    requires file.cacheVersion != cacheVersion || file.bitbakeVersion != bitbakeVersion
    ensures LoadFiles(c, before + [file] + after, cacheVersion, bitbakeVersion) ==
      LoadFiles(c, before, cacheVersion, bitbakeVersion)
    decreases |before|
  {
    hide LoadItems;
    var files := before + [file] + after;
    if before != [] {
      assert files[0] == before[0] && files[1..] == before[1..] + [file] + after;
      OtherVersionEnds(LoadItems(c, before[0].items), before[1..], file, after, cacheVersion, bitbakeVersion);
    }
  }

  // One info per cache class, in their order, as `parse` builds it.
  predicate AsParsed(infos: seq<Info>, classes: seq<string>) {
    |infos| == |classes| && forall i :: 0 <= i < |classes| ==> ClassOf(infos[i]) == classes[i]
  }

  lemma {:induction false} NoneOfClass(infos: seq<Info>, cls: string)
    requires forall i :: 0 <= i < |infos| ==> ClassOf(infos[i]) != cls
    ensures OfClass(infos, cls) == []
  {
    if infos != [] {
      NoneOfClass(infos[1..], cls);
    }
  }

  lemma {:induction false} GroupedSkips(info: Info, infos: seq<Info>, classes: seq<string>)
    requires ClassOf(info) !in classes
    ensures Grouped([info] + infos, classes) == Grouped(infos, classes)
  {
    if classes != [] {
      assert ([info] + infos)[1..] == infos && ClassOf(info) != classes[0];
      GroupedSkips(info, infos, classes[1..]);
    }
  }

  lemma {:induction false} ParsedIsGrouped(infos: seq<Info>, classes: seq<string>)
    requires AsParsed(infos, classes)
    requires forall i, j :: 0 <= i < j < |classes| ==> classes[i] != classes[j]
    ensures Grouped(infos, classes) == infos
  {
    if classes != [] {
      NoneOfClass(infos[1..], classes[0]);
      ParsedIsGrouped(infos[1..], classes[1..]);
      assert infos == [infos[0]] + infos[1..];
      assert classes[0] !in classes[1..];
      GroupedSkips(infos[0], infos[1..], classes[1..]);
    }
  }

  // `sync` and then `load_cachefile` with the same classes rebuild the cache entry for entry.
  lemma {:induction false} FilesRoundTrip(entries: Ordered, classes: seq<string>, cacheVersion: string,
                                          bitbakeVersion: string, key: string)
    requires DistinctKeys(entries) && classes != []
    requires forall i, j :: 0 <= i < j < |classes| ==> classes[i] != classes[j]
    requires forall i :: 0 <= i < |entries| ==> AsParsed(entries[i].1, classes)
    ensures var d := LoadFiles(map[], Written(entries, classes, cacheVersion, bitbakeVersion), cacheVersion,
      bitbakeVersion);
      && (key in d <==> exists i :: 0 <= i < |entries| && entries[i].0 == key)
      && InfosAt(d, key) == Entry(entries, key)
  {
    LoadFindsGrouped(map[], entries, classes, cacheVersion, bitbakeVersion, key);
    if i :| 0 <= i < |entries| && entries[i].0 == key {
      EntryAt(entries, i);
      ParsedIsGrouped(entries[i].1, classes);
      assert [] + entries[i].1 == entries[i].1;
    } else {
      NotThere(entries, key);
      NothingGrouped(classes);
    }
  }

  lemma {:induction false} EntryAt(entries: Ordered, i: nat)
    requires DistinctKeys(entries) && i < |entries|
    ensures Entry(entries, entries[i].0) == entries[i].1
  {
    if i > 0 {
      EntryAt(entries[1..], i - 1);
    }
  }

  lemma {:induction false} NothingGrouped(classes: seq<string>)
    ensures Grouped([], classes) == []
  {
    if classes != [] {
      NothingGrouped(classes[1..]);
    }
  }

  // ----- the program -----

  class Cache {
    var dependsCache: Entries
    var clean: set<string>
    var checked: set<string>
    const cachesArray: seq<string>

    constructor (cachesArray: seq<string>)
      ensures this.cachesArray == cachesArray && Now() == State(map[], {}, {})
    {
      this.cachesArray := cachesArray;
      dependsCache, clean, checked := map[], {}, {};
    }

    function Now(): State
      reads this
    {
      State(dependsCache, clean, checked)
    }

    // `cacheValid`
    method CacheValid(fn: string, appends: seq<string>, disk: Disk) returns (valid: bool)
      requires Typed(dependsCache)
      modifies this
      ensures (Now(), valid) == AfterCheck(old(Now()), disk, |cachesArray|, fn, appends)
    {
      if fn !in checked {
        var updated := CacheValidUpdate(fn, appends, disk);
      }
      return fn in clean;
    }

    // `cacheValidUpdate`
    method CacheValidUpdate(fn: string, appends: seq<string>, disk: Disk) returns (valid: bool)
      requires Typed(dependsCache)
      modifies this
      ensures (Now(), valid) == AfterUpdate(old(Now()), disk, |cachesArray|, fn, appends)
    {
      checked := checked + {fn};
      if fn !in dependsCache {
        return false;
      }
      var info := dependsCache[fn][0];
      var current := IsCurrent(fn, appends, info, disk);
      if !current {
        RemoveEntry(fn);
        return false;
      }
      valid := MarkVariants(fn, info.variants);
    }

    // The checks of `cacheValidUpdate` against the disk.
    method IsCurrent(fn: string, appends: seq<string>, info: Info, disk: Disk) returns (current: bool)
      requires info.Core?
      ensures current <==> UpToDate(disk, fn, appends, info)
    {
      var mtime := Mtime(disk, fn);
      if mtime == 0 || mtime != info.timestamp {
        return false;
      }
      for i := 0 to |info.fileDepends|
        invariant forall j :: 0 <= j < i ==> Mtime(disk, info.fileDepends[j].0) == info.fileDepends[j].1
      {
        var (f, oldMtime) := info.fileDepends[i];
        var fmtime := Mtime(disk, f);
        if (oldMtime != 0 && fmtime == 0) || fmtime != oldMtime {
          return false;
        }
      }
      for i := 0 to |info.checksums|
        invariant forall j :: 0 <= j < i ==> (info.checksums[j].0 in disk.existing <==> info.checksums[j].1)
      {
        var (f, exist) := info.checksums[i];
        if (exist && f !in disk.existing) || (!exist && f in disk.existing) {
          return false;
        }
      }
      return appends == info.appends;
    }

    // The rest of `cacheValidUpdate`: all variants are marked clean, or none.
    method MarkVariants(fn: string, variants: seq<string>) returns (valid: bool)
      modifies this`clean
      ensures valid <==> forall v :: v in variants ==> IsWhole(dependsCache, |cachesArray|, Variant(fn, v))
      ensures clean == if valid then old(clean) + Names(fn, variants) + {fn}
        else old(clean) - Names(fn, variants) - {fn}
    {
      hide Variant;
      var invalid := false;
      for i := 0 to |variants|
        invariant clean == old(clean) + Names(fn, variants[..i])
        invariant invalid <==> !forall v :: v in variants[..i] ==> IsWhole(dependsCache, |cachesArray|, Variant(fn, v))
      {
        assert variants[..i + 1] == variants[..i] + [variants[i]];
        var virtualfn := Variant(fn, variants[i]);
        clean := clean + {virtualfn};
        if virtualfn !in dependsCache || |dependsCache[virtualfn]| != |cachesArray| {
          invalid := true;
        }
      }
      assert variants[..|variants|] == variants;
      if invalid {
        for i := 0 to |variants|
          invariant clean == old(clean) + Names(fn, variants) - Names(fn, variants[..i])
        {
          assert variants[..i + 1] == variants[..i] + [variants[i]];
          clean := clean - {Variant(fn, variants[i])};
        }
        clean := clean - {fn};
        return false;
      }
      clean := clean + {fn};
      return true;
    }

    // `remove`
    method RemoveEntry(fn: string)
      modifies this`dependsCache, this`clean
      ensures Now() == AfterRemove(old(Now()), fn)
    {
      dependsCache := dependsCache - {fn};
      clean := clean - {fn};
    }

    // `loadCached`
    method LoadCached(fn: string) returns (r: Result<seq<(string, seq<Info>)>, KeyError>)
      requires Typed(dependsCache)
      ensures r == if fn in dependsCache then Loaded(dependsCache, fn, VariantsOf(dependsCache, fn))
        else Err(KeyError(fn))
    {
      hide Variant;
      if fn !in dependsCache {
        return Err(KeyError(fn));
      }
      var variants := dependsCache[fn][0].variants;
      var infos := [];
      ghost var all := Loaded(dependsCache, fn, variants);
      assert variants[0..] == variants && (all.Ok? ==> [] + all.value == all.value);
      for i := 0 to |variants|
        invariant Loaded(dependsCache, fn, variants) == match Loaded(dependsCache, fn, variants[i..])
          case Err(e) => Err(e)
          case Ok(rest) => Ok(infos + rest)
      {
        ghost var rest := variants[i..];
        assert rest[0] == variants[i] && rest[1..] == variants[i + 1..];
        var virtualfn := Variant(fn, variants[i]);
        if virtualfn !in dependsCache {
          return Err(KeyError(virtualfn));
        }
        ghost var later := Loaded(dependsCache, fn, variants[i + 1..]);
        if later.Ok? {
          assert infos + ([(virtualfn, dependsCache[virtualfn])] + later.value) == infos
            + [(virtualfn, dependsCache[virtualfn])] + later.value;
        }
        infos := infos + [(virtualfn, dependsCache[virtualfn])];
      }
      assert variants[|variants|..] == [] && infos + [] == infos;
      return Ok(infos);
    }

    // `load_cachefile`
    method LoadCachefile(files: seq<PickleFile>, cacheVersion: string, bitbakeVersion: string)
      modifies this`dependsCache
      ensures dependsCache == LoadFiles(old(dependsCache), files, cacheVersion, bitbakeVersion)
    {
      for i := 0 to |files|
        invariant LoadFiles(dependsCache, files[i..], cacheVersion, bitbakeVersion) ==
          LoadFiles(old(dependsCache), files, cacheVersion, bitbakeVersion)
      {
        ghost var rest := files[i..];
        assert rest[0] == files[i] && rest[1..] == files[i + 1..];
        if files[i].cacheVersion != cacheVersion || files[i].bitbakeVersion != bitbakeVersion {
          return;
        }
        LoadOne(files[i].items);
      }
    }

    method LoadOne(items: seq<(string, Info)>)
      modifies this`dependsCache
      ensures dependsCache == LoadItems(old(dependsCache), items)
    {
      for i := 0 to |items|
        invariant LoadItems(dependsCache, items[i..]) == LoadItems(old(dependsCache), items)
      {
        ghost var rest := items[i..];
        assert rest[0] == items[i] && rest[1..] == items[i + 1..];
        var (key, value) := items[i];
        if key in dependsCache {
          dependsCache := dependsCache[key := dependsCache[key] + [value]];
        } else {
          assert [] + [value] == [value];
          dependsCache := dependsCache[key := [value]];
        }
      }
    }
  }

  lemma {:induction false} PairedFirst(key: string, infos: seq<Info>, cls: string)
    requires infos != []
    ensures Paired(key, OfClass(infos, cls)) ==
      (if ClassOf(infos[0]) == cls then [(key, infos[0])] else []) + Paired(key, OfClass(infos[1..], cls))
  {
    if ClassOf(infos[0]) == cls {
      var later := OfClass(infos[1..], cls);
      assert OfClass(infos, cls) == [infos[0]] + later && ([infos[0]] + later)[1..] == later;
    } else {
      assert OfClass(infos, cls) == OfClass(infos[1..], cls);
    }
  }

  lemma {:induction false} PairedNext(key: string, infos: seq<Info>, j: nat, cls: string, items: seq<(string, Info)>)
    requires j < |infos|
    ensures items + Paired(key, OfClass(infos[j..], cls)) ==
      (if ClassOf(infos[j]) == cls then items + [(key, infos[j])] else items)
      + Paired(key, OfClass(infos[j + 1..], cls))
  {
    hide Paired, OfClass;
    assert infos[j..][0] == infos[j] && infos[j..][1..] == infos[j + 1..];
    PairedFirst(key, infos[j..], cls);
  }

  // The innermost loop of `sync`.
  method WriteInfos(key: string, infos: seq<Info>, cls: string) returns (items: seq<(string, Info)>)
    ensures items == Paired(key, OfClass(infos, cls))
  {
    items := [];
    assert infos[|infos|..] == [] && Paired(key, OfClass(infos[|infos|..], cls)) == [];
    hide Paired, OfClass;
    for j := 0 to |infos|
      invariant items + Paired(key, OfClass(infos[j..], cls)) == Paired(key, OfClass(infos, cls))
    {
      PairedNext(key, infos, j, cls, items);
      if ClassOf(infos[j]) == cls {
        items := items + [(key, infos[j])];
      }
    }
  }

  // The loop of `sync` over one class, with the dictionary in its order.
  method WriteItems(entries: Ordered, cls: string) returns (items: seq<(string, Info)>)
    ensures items == ItemsOf(entries, cls)
  {
    hide Paired, OfClass;
    items := [];
    for i := 0 to |entries|
      invariant items + ItemsOf(entries[i..], cls) == ItemsOf(entries, cls)
    {
      ghost var rest := entries[i..];
      assert rest[0] == entries[i] && rest[1..] == entries[i + 1..];
      var more := WriteInfos(entries[i].0, entries[i].1, cls);
      assert items + (more + ItemsOf(entries[i + 1..], cls)) == (items + more) + ItemsOf(entries[i + 1..], cls);
      items := items + more;
    }
    assert entries[|entries|..] == [];
  }

  // `sync`
  method Sync(entries: Ordered, classes: seq<string>, cacheVersion: string, bitbakeVersion: string)
      returns (files: seq<PickleFile>)
    ensures files == Written(entries, classes, cacheVersion, bitbakeVersion)
  {
    files := [];
    for i := 0 to |classes|
      invariant files + Written(entries, classes[i..], cacheVersion, bitbakeVersion) ==
        Written(entries, classes, cacheVersion, bitbakeVersion)
    {
      ghost var rest := classes[i..];
      assert rest[0] == classes[i] && rest[1..] == classes[i + 1..];
      var items := WriteItems(entries, classes[i]);
      ghost var later := Written(entries, classes[i + 1..], cacheVersion, bitbakeVersion);
      assert files + ([PickleFile(cacheVersion, bitbakeVersion, items)] + later) ==
        (files + [PickleFile(cacheVersion, bitbakeVersion, items)]) + later;
      files := files + [PickleFile(cacheVersion, bitbakeVersion, items)];
    }
    assert classes[|classes|..] == [];
  }
}
