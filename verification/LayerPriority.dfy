// The priorities of layers (cooker.py:1128-1147, 1209-1223): given ones are kept, the others follow
// from the dependencies.
module LayerPriority {
  import opened Prelude

  datatype Layer = Layer(priority: Option<int>, deps: seq<string>)

  type Layers = map<string, Layer>

  // Every dependency is enabled, and explicit priorities are positive.
  predicate WellFormed(layers: Layers) {
    && (forall c, d :: c in layers && d in layers[c].deps ==> d in layers)
    && (forall c :: c in layers && layers[c].priority.Some? ==> layers[c].priority.value > 0)
  }

  // The dependencies have no cycle: they go down in rank.
  predicate Ranks(layers: Layers, rank: map<string, nat>) {
    && layers.Keys <= rank.Keys
    && forall c, d :: c in layers && d in layers[c].deps && d in layers ==> rank[d] < rank[c]
  }

  // BBFILE_COLLECTIONS lists the layers, in some order.
  predicate Lists(list: seq<string>, layers: Layers) {
    (forall c :: c in list ==> c in layers) && (forall c :: c in layers ==> c in list)
  }

  // ----- the smallest explicit priority -----

  function MinPrio(list: seq<string>, layers: Layers): int
    requires forall c :: c in list ==> c in layers
  {
    if list == [] then 0
    else
      var before := MinPrio(list[..|list| - 1], layers);
      match layers[list[|list| - 1]].priority
      case None => before
      case Some(prio) => if before == 0 || prio < before then prio else before
  }

  // 0 without any explicit priority, otherwise the least of them.
  ghost predicate IsLeast(layers: Layers, list: seq<string>, m: int)
    requires forall c :: c in list ==> c in layers
  {
    && (m == 0 || exists c :: c in list && layers[c].priority == Some(m))
    && (forall c :: c in list && layers[c].priority.Some? ==> 0 < m <= layers[c].priority.value)
  }

  lemma {:induction false} MinPrioIsLeast(list: seq<string>, layers: Layers)
    requires WellFormed(layers) && forall c :: c in list ==> c in layers
    ensures IsLeast(layers, list, MinPrio(list, layers)) && MinPrio(list, layers) >= 0
  {
    if list != [] {
      var few, last := list[..|list| - 1], list[|list| - 1];
      MinPrioIsLeast(few, layers);
      assert list == few + [last];
      var before, m := MinPrio(few, layers), MinPrio(list, layers);
      if m == before && m != 0 {
        var c :| c in few && layers[c].priority == Some(m);
      }
      forall c | c in list && layers[c].priority.Some? ensures 0 < m <= layers[c].priority.value {
        assert c in few || c == last;
      }
    }
  }

  lemma {:induction false} LeastIsUnique(layers: Layers, list: seq<string>, list': seq<string>, m: int, n: int)
    requires Lists(list, layers) && Lists(list', layers) && IsLeast(layers, list, m) && IsLeast(layers, list', n)
    ensures m == n
  {
    forall c | c in list && layers[c].priority.Some? ensures 0 < n <= layers[c].priority.value {}
    forall c | c in list' && layers[c].priority.Some? ensures 0 < m <= layers[c].priority.value {}
    if m != 0 { var c :| c in list && layers[c].priority == Some(m); }
    if n != 0 { var c :| c in list' && layers[c].priority == Some(n); }
  }

  // ----- the priorities -----

  // `m` is the greatest of `low` and the priorities of the dependencies.
  ghost predicate IsGreatest(m: int, low: int, deps: seq<string>, prio: map<string, int>)
    requires forall d :: d in deps ==> d in prio
  {
    && low <= m && (forall d :: d in deps ==> prio[d] <= m)
    && (m == low || exists d :: d in deps && prio[d] == m)
  }

  // Explicit priorities are kept; every other layer is one above the smallest explicit priority
  // and above all its dependencies.
  ghost predicate ArePriorities(layers: Layers, low: int, prio: map<string, int>)
    requires WellFormed(layers)
  {
    && prio.Keys == layers.Keys
    && forall c :: c in layers ==>
         match layers[c].priority
         case Some(p) => prio[c] == p
         case None => IsGreatest(prio[c] - 1, low, layers[c].deps, prio)
  }

  lemma {:induction false} PrioritiesAreUnique(layers: Layers, rank: map<string, nat>, low: int,
                                               prio: map<string, int>, prio': map<string, int>, c: string)
    requires WellFormed(layers) && Ranks(layers, rank) && c in layers
    requires ArePriorities(layers, low, prio) && ArePriorities(layers, low, prio')
    ensures prio[c] == prio'[c]
    decreases rank[c]
  {
    if layers[c].priority.None? {
      forall d | d in layers[c].deps ensures prio[d] == prio'[d] {
        PrioritiesAreUnique(layers, rank, low, prio, prio', d);
      }
    }
  }

  // A step-by-step definition along the ranks, to say what has been computed so far.
  ghost function Final(layers: Layers, rank: map<string, nat>, low: int, c: string): (p: int)
    requires WellFormed(layers) && Ranks(layers, rank) && c in layers && low >= 0
    ensures p > 0
    decreases rank[c], 1, 0
  {
    match layers[c].priority
    case Some(p) => p
    case None => 1 + Greatest(layers, rank, low, c, |layers[c].deps|)
  }

  // Over the first `n` dependencies.
  ghost function Greatest(layers: Layers, rank: map<string, nat>, low: int, c: string, n: nat): (m: int)
    requires WellFormed(layers) && Ranks(layers, rank) && c in layers && low >= 0 && n <= |layers[c].deps|
    ensures m >= low
    decreases rank[c], 0, n
  {
    if n == 0 then low
    else
      var d := layers[c].deps[n - 1];
      assert d in layers[c].deps;
      var m := Greatest(layers, rank, low, c, n - 1);
      var p := Final(layers, rank, low, d);
      if p > m then p else m
  }

  ghost function AllFinal(layers: Layers, rank: map<string, nat>, low: int): map<string, int>
    requires WellFormed(layers) && Ranks(layers, rank) && low >= 0
  {
    map c | c in layers :: Final(layers, rank, low, c)
  }

  lemma {:induction false} GreatestIs(layers: Layers, rank: map<string, nat>, low: int, c: string, n: nat)
    requires WellFormed(layers) && Ranks(layers, rank) && c in layers && low >= 0 && n <= |layers[c].deps|
    ensures forall d :: d in layers[c].deps[..n] ==> d in layers
    ensures IsGreatest(Greatest(layers, rank, low, c, n), low, layers[c].deps[..n], AllFinal(layers, rank, low))
    decreases n
  {
    var deps := layers[c].deps;
    if n > 0 {
      GreatestIs(layers, rank, low, c, n - 1);
      assert deps[..n] == deps[..n - 1] + [deps[n - 1]];
      assert deps[n - 1] in deps[..n];
    }
  }

  lemma {:induction false} FinalArePriorities(layers: Layers, rank: map<string, nat>, low: int)
    requires WellFormed(layers) && Ranks(layers, rank) && low >= 0
    ensures ArePriorities(layers, low, AllFinal(layers, rank, low))
  {
    var prio := AllFinal(layers, rank, low);
    forall c | c in layers && layers[c].priority.None? ensures IsGreatest(prio[c] - 1, low, layers[c].deps, prio) {
      GreatestIs(layers, rank, low, c, |layers[c].deps|);
      assert layers[c].deps[..|layers[c].deps|] == layers[c].deps;
    }
  }

  // ----- the program -----

  class LayerCollection {
    const layers: Layers
    var minPrio: int
    var priorities: map<string, Option<int>>

    constructor (layers: Layers)
      ensures this.layers == layers && minPrio == 0 && priorities == map[]
    {
      this.layers := layers;
      minPrio, priorities := 0, map[];
    }

    // The first loop of `handleCollections`.
    method ReadPriorities(list: seq<string>)
      requires Lists(list, layers)
      modifies this
      ensures minPrio == MinPrio(list, layers)
      ensures priorities.Keys == layers.Keys && forall c :: c in layers ==> priorities[c] == layers[c].priority
    {
      minPrio, priorities := 0, map[];
      for i := 0 to |list|
        invariant minPrio == MinPrio(list[..i], layers)
        invariant forall c :: c in priorities <==> c in list[..i]
        invariant forall c :: c in priorities ==> priorities[c] == layers[c].priority
      {
        var c := list[i];
        ghost var more := list[..i + 1];
        assert more[..i] == list[..i] && more == list[..i] + [c];
        var priority := layers[c].priority;
        if priority.Some? {
          if minPrio == 0 || priority.value < minPrio {
            minPrio := priority.value;
          }
          priorities := priorities[c := Some(priority.value)];
        } else {
          priorities := priorities[c := None];
        }
      }
      assert list[..|list|] == list;
    }

    // What has been computed so far is final; explicit priorities are there from the start.
    ghost predicate Sound(rank: map<string, nat>)
      reads this
    {
      && WellFormed(layers) && Ranks(layers, rank) && minPrio >= 0 && priorities.Keys == layers.Keys
      && (forall c :: c in layers && layers[c].priority.Some? ==> priorities[c] == layers[c].priority)
      && (forall c :: c in layers && priorities[c].Some? ==> priorities[c].value == Final(layers, rank, minPrio, c))
    }

    // `calc_layer_priority`
    method CalcLayerPriority(collection: string, ghost rank: map<string, nat>)
      requires Sound(rank) && collection in layers
      modifies this`priorities
      ensures forall c :: old(Known(c)) ==> Known(c)
      ensures Known(collection)
      ensures Sound(rank) && priorities[collection] == Some(Final(layers, rank, minPrio, collection))
      ensures forall c :: c in layers && old(priorities)[c].Some? ==> priorities[c] == old(priorities)[c]
      decreases rank[collection], 1
    {
      if priorities[collection].None? || priorities[collection].value == 0 {
        var maxDepprio := CalcDependencies(collection, rank);
        maxDepprio := maxDepprio + 1;
        priorities := priorities[collection := Some(maxDepprio)];
      }
    }

    // The loop over the dependencies of one layer.
    method CalcDependencies(collection: string, ghost rank: map<string, nat>) returns (maxDepprio: int)
      requires Sound(rank) && collection in layers
      modifies this`priorities
      ensures Sound(rank)
      ensures maxDepprio == Greatest(layers, rank, minPrio, collection, |layers[collection].deps|)
      ensures forall c :: c in layers && old(priorities)[c].Some? ==> priorities[c] == old(priorities)[c]
      decreases rank[collection], 0
    {
      maxDepprio := minPrio;
      var deps := layers[collection].deps;
      for i := 0 to |deps|
        invariant Sound(rank) && maxDepprio == Greatest(layers, rank, minPrio, collection, i)
        invariant forall c :: c in layers && old(priorities)[c].Some? ==> priorities[c] == old(priorities)[c]
      {
        var dep := deps[i];
        assert dep in deps;
        CalcLayerPriority(dep, rank);
        var depprio := priorities[dep].value;
        if depprio > maxDepprio {
          maxDepprio := depprio;
        }
      }
    }

    // All of it, for one order of the layers.
    method CalcAll(list: seq<string>, ghost rank: map<string, nat>) returns (prio: map<string, int>)
      requires Lists(list, layers) && WellFormed(layers) && Ranks(layers, rank)
      modifies this
      ensures minPrio == MinPrio(list, layers) >= 0 && prio == AllFinal(layers, rank, minPrio)
      ensures ArePriorities(layers, minPrio, prio)
    {
      ReadPriorities(list);
      MinPrioIsLeast(list, layers);
      SoundAtStart(rank);
      hide *;
      for i := 0 to |list|
        invariant Sound(rank) && minPrio == MinPrio(list, layers)
        invariant forall c :: c in list[..i] ==> Known(c)
      {
        assert list[..i + 1] == list[..i] + [list[i]];
        ListHolds(list, layers, i);
        CalcLayerPriority(list[i], rank);
      }
      assert list[..|list|] == list;
      prio := Values(list, rank);
    }

    predicate Known(c: string)
      reads this
    {
      c in priorities && priorities[c].Some?
    }

    lemma SoundAtStart(rank: map<string, nat>)
      requires WellFormed(layers) && Ranks(layers, rank) && minPrio >= 0 && priorities.Keys == layers.Keys
      requires forall c :: c in layers ==> priorities[c] == layers[c].priority
      ensures Sound(rank)
    {}

    method Values(list: seq<string>, ghost rank: map<string, nat>) returns (prio: map<string, int>)
      requires Sound(rank) && Lists(list, layers) && forall c :: c in list ==> Known(c)
      ensures prio == AllFinal(layers, rank, minPrio) && ArePriorities(layers, minPrio, prio)
    {
      hide Final;
      prio := map c | c in priorities && priorities[c].Some? :: priorities[c].value;
      assert prio == AllFinal(layers, rank, minPrio);
      FinalArePriorities(layers, rank, minPrio);
    }
  }

  lemma {:induction false} ListHolds(list: seq<string>, layers: Layers, i: nat)
    requires Lists(list, layers) && i < |list|
    ensures list[i] in layers
  {}

  // Whatever the order in which BBFILE_COLLECTIONS lists the layers, the priorities are the same.
  lemma {:induction false} OrderDoesNotMatter(layers: Layers, rank: map<string, nat>, list: seq<string>,
                                              list': seq<string>, prio: map<string, int>, prio': map<string, int>)
    requires WellFormed(layers) && Ranks(layers, rank) && Lists(list, layers) && Lists(list', layers)
    requires ArePriorities(layers, MinPrio(list, layers), prio) && ArePriorities(layers, MinPrio(list', layers), prio')
    ensures prio == prio'
  {
    MinPrioIsLeast(list, layers);
    MinPrioIsLeast(list', layers);
    LeastIsUnique(layers, list, list', MinPrio(list, layers), MinPrio(list', layers));
    forall c | c in layers ensures prio[c] == prio'[c] {
      PrioritiesAreUnique(layers, rank, MinPrio(list, layers), prio, prio', c);
    }
  }
}
