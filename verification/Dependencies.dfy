// What a task depends on, and what its hash is made of (data.py:387-440).
module Dependencies {
  import opened Prelude

  // What `build_dependencies` finds for a name: the names that it refers to, and its value.
  datatype Node = Node(deps: set<string>, value: Option<string>)

  type Graph = map<string, Node>

  // Every name that is referred to can be looked up.
  predicate Closed(g: Graph) {
    forall k :: k in g ==> g[k].deps <= g.Keys
  }

  // ----- reachability -----

  predicate IsPath(g: Graph, p: seq<string>) {
    |p| >= 2 && (forall i :: 0 <= i < |p| - 1 ==> p[i] in g && p[i + 1] in g[p[i]].deps)
  }

  // Some path of one or more references leads from `a` to `b`.
  ghost predicate Reaches(g: Graph, a: string, b: string) {
    exists p :: IsPath(g, p) && p[0] == a && p[|p| - 1] == b
  }

  lemma {:induction false} OneStep(g: Graph, a: string, b: string)
    requires a in g && b in g[a].deps
    ensures Reaches(g, a, b)
  {
    assert IsPath(g, [a, b]);
  }

  lemma {:induction false} OneMoreStep(g: Graph, a: string, b: string, c: string)
    requires Reaches(g, a, b) && b in g && c in g[b].deps
    ensures Reaches(g, a, c)
  {
    var p :| IsPath(g, p) && p[0] == a && p[|p| - 1] == b;
    var q := p + [c];
    assert IsPath(g, q) && q[0] == a && q[|q| - 1] == c;
  }

  // A set that holds what `a` refers to, and what its members refer to, holds all that `a` reaches.
  lemma {:induction false} ClosedSetHoldsAll(g: Graph, a: string, s: set<string>, p: seq<string>)
    requires a in g && g[a].deps <= s && (forall x :: x in s && x in g ==> g[x].deps <= s)
    requires IsPath(g, p) && p[0] == a
    ensures p[|p| - 1] in s
    decreases |p|
  {
    if |p| > 2 {
      var q := p[..|p| - 1];
      assert IsPath(g, q);
      ClosedSetHoldsAll(g, a, s, q);
      assert q[|q| - 1] == p[|p| - 2];
    } else {
      assert p[0] == a && p[1] in g[p[0]].deps;
    }
  }

  lemma {:induction false} ReachesWithin(g: Graph, a: string, s: set<string>)
    requires a in g && g[a].deps <= s && (forall x :: x in s && x in g ==> g[x].deps <= s)
    ensures forall b :: Reaches(g, a, b) ==> b in s
  {
    forall b | Reaches(g, a, b) ensures b in s {
      var p :| IsPath(g, p) && p[0] == a && p[|p| - 1] == b;
      ClosedSetHoldsAll(g, a, s, p);
    }
  }

  // Exactly the names that `a` reaches.
  ghost predicate IsClosure(g: Graph, a: string, s: set<string>) {
    forall b :: b in s <==> Reaches(g, a, b)
  }

  // ----- the worklist -----

  // The state of the loop that follows the references of `a`: `seen` has been followed, `todo` not.
  ghost predicate Following(g: Graph, a: string, seen: set<string>, todo: set<string>) {
    && a in g && seen !! todo && seen + todo <= g.Keys && g[a].deps <= seen + todo
    && (forall x :: x in seen ==> g[x].deps <= seen + todo)
    && (forall x :: x in seen + todo ==> Reaches(g, a, x))
  }

  lemma {:induction false} FollowingStarts(g: Graph, a: string)
    requires Closed(g) && a in g
    ensures Following(g, a, {}, g[a].deps)
  {
    forall x | x in g[a].deps ensures Reaches(g, a, x) { OneStep(g, a, x); }
  }

  function DepsOf(g: Graph, names: set<string>): set<string>
    requires names <= g.Keys
  {
    set x, y | x in names && y in g[x].deps :: y
  }

  lemma {:induction false} FollowingGoesOn(g: Graph, a: string, seen: set<string>, todo: set<string>)
    requires Closed(g) && Following(g, a, seen, todo)
    ensures Following(g, a, seen + todo, DepsOf(g, todo) - (seen + todo))
  {
    var next := DepsOf(g, todo) - (seen + todo);
    forall y | y in next ensures y in g && Reaches(g, a, y) {
      var x :| x in todo && y in g[x].deps;
      OneMoreStep(g, a, x, y);
    }
    forall x | x in seen + todo ensures g[x].deps <= seen + todo + next {
      assert x in todo ==> g[x].deps <= DepsOf(g, todo);
    }
  }

  lemma {:induction false} FollowingEnds(g: Graph, a: string, seen: set<string>)
    requires Following(g, a, seen, {})
    ensures IsClosure(g, a, seen)
  {
    ReachesWithin(g, a, seen);
  }

  lemma {:induction false} StrictlyMore(g: Graph, seen: set<string>, todo: set<string>)
    requires todo != {} && seen !! todo && seen + todo <= g.Keys
    ensures |g.Keys - (seen + todo)| < |g.Keys - seen|
  {
    var x :| x in todo;
    assert x in g.Keys - seen && x !in g.Keys - (seen + todo);
    assert g.Keys - (seen + todo) <= (g.Keys - seen) - {x};
    Subset(g.Keys - (seen + todo), (g.Keys - seen) - {x});
  }

  lemma {:induction false} Subset(a: set<string>, b: set<string>)
    requires a <= b
    ensures |a| <= |b|
  {
    assert b == a + (b - a);
  }

  // The names looked up so far, with what was found for them.
  predicate PartOf(found: Graph, g: Graph) {
    forall k :: k in found ==> k in g && found[k] == g[k]
  }

  const EMPTY: Graph := map[]

  // `generate_dependencies`: the tasks, everything that they reach, and nothing else is looked up;
  // afterwards every name that is referred to can be looked up in the result.
  method GenerateDependencies(g: Graph, tasklist: seq<string>) returns (found: Graph)
    requires Closed(g) && forall t :: t in tasklist ==> t in g
    ensures PartOf(found, g) && Closed(found)
    ensures forall k :: k in found <==> k in tasklist || exists t :: t in tasklist && Reaches(g, t, k)
  {
    found := EMPTY;
    assert PartOf(found, g) && Closed(found);
    hide Reaches, PartOf, Closed;
    for i := 0 to |tasklist|
      invariant PartOf(found, g) && Closed(found)
      invariant HasAll(g, tasklist[..i], found)
    {
      var seen;
      ghost var before := found;
      found, seen := FollowTask(g, tasklist[i], found);
      HasMore(g, tasklist[..i], tasklist[i], before, seen, found);
      assert tasklist[..i + 1] == tasklist[..i] + [tasklist[i]];
    }
    assert tasklist[..|tasklist|] == tasklist;
  }

  // `found` has just the tasks and what they reach.
  ghost predicate HasAll(g: Graph, tasks: seq<string>, found: Graph) {
    forall k :: k in found <==> k in tasks || exists t :: t in tasks && Reaches(g, t, k)
  }

  lemma {:induction false} HasMore(g: Graph, tasks: seq<string>, task: string, before: Graph, seen: set<string>,
                                   found: Graph)
    requires HasAll(g, tasks, before) && IsClosure(g, task, seen) && found.Keys == before.Keys + {task} + seen
    ensures HasAll(g, tasks + [task], found)
  {
    hide Reaches;
    forall k ensures k in found <==> k in tasks + [task] || exists t :: t in tasks + [task] && Reaches(g, t, k) {
      assert k in found <==> k in before || k == task || k in seen;
      if t :| t in tasks + [task] && Reaches(g, t, k) {
        assert t in tasks || t == task;
      }
      if t :| t in tasks && Reaches(g, t, k) {
        assert t in tasks + [task];
      }
    }
  }

  // One task of `generate_dependencies`.
  method FollowTask(g: Graph, task: string, before: Graph) returns (found: Graph, seen: set<string>)
    requires Closed(g) && task in g && PartOf(before, g) && Closed(before)
    ensures PartOf(found, g) && Closed(found)
    ensures found.Keys == before.Keys + {task} + seen && IsClosure(g, task, seen)
  {
    hide IsClosure, Following, DepsOf, Reaches;
    var start := before[task := g[task]];
    assert start.Keys == before.Keys + {task};
    found, seen := Follow(g, task, start);
    StaysClosed(g, task, seen, before, found);
    FollowingEnds(g, task, seen);
  }

  // `names` have been looked up on top of `before`.
  predicate LookedUp(g: Graph, before: Graph, found: Graph, names: set<string>) {
    PartOf(found, g) && found.Keys == before.Keys + names
  }

  lemma {:induction false} LookedUpMore(g: Graph, before: Graph, found: Graph, names: set<string>, more: Graph,
                                        others: set<string>)
    requires LookedUp(g, before, found, names) && LookedUp(g, found, more, others)
    ensures LookedUp(g, before, more, names + others)
  {}

  method Follow(g: Graph, task: string, start: Graph) returns (found: Graph, seen: set<string>)
    requires Closed(g) && task in g && PartOf(start, g)
    ensures LookedUp(g, start, found, seen) && Following(g, task, seen, {})
  {
    found, seen := start, {};
    var newdeps := g[task].deps;
    assert LookedUp(g, start, found, seen);
    FollowingStarts(g, task);
    hide *;
    while newdeps != {}
      invariant Following(g, task, seen, newdeps) && LookedUp(g, start, found, seen)
      decreases |g.Keys - seen|
    {
      FollowingInside(g, task, seen, newdeps);
      StrictlyMore(g, seen, newdeps);
      FollowingGoesOn(g, task, seen, newdeps);
      ghost var before, done := found, seen;
      var nextdeps := newdeps;
      seen := seen + nextdeps;
      found, newdeps := LookUp(g, found, nextdeps);
      LookedUpMore(g, start, before, done, found, nextdeps);
      newdeps := newdeps - seen;
    }
  }

  lemma {:induction false} FollowingInside(g: Graph, a: string, seen: set<string>, todo: set<string>)
    requires Following(g, a, seen, todo)
    ensures seen !! todo && seen + todo <= g.Keys && todo <= g.Keys
  {}

  lemma {:induction false} StaysClosed(g: Graph, a: string, seen: set<string>, before: Graph, found: Graph)
    requires Following(g, a, seen, {}) && Closed(before) && PartOf(before, g) && PartOf(found, g)
    requires found.Keys == before.Keys + {a} + seen
    ensures Closed(found)
  {
    assert seen + {} == seen;
    forall k | k in found ensures found[k].deps <= found.Keys {
      assert found[k] == g[k];
      assert k in before ==> before[k] == g[k];
    }
  }

  // The inner loop: all of `names` are looked up, in any order, unless they have been before.
  method LookUp(g: Graph, before: Graph, names: set<string>) returns (found: Graph, newdeps: set<string>)
    requires names <= g.Keys && PartOf(before, g)
    ensures LookedUp(g, before, found, names) && newdeps == DepsOf(g, names)
  {
    found, newdeps := before, {};
    var todo := names;
    while todo != {}
      invariant todo <= names && newdeps == DepsOf(g, names - todo) && PartOf(found, g)
      invariant found.Keys == before.Keys + (names - todo)
    {
      var dep :| dep in todo;
      if dep !in found {
        found := found[dep := g[dep]];
      }
      newdeps := newdeps + found[dep].deps;
      todo := todo - {dep};
    }
  }

  // ----- what is hashed -----

  // The order of Python strings.
  predicate Less(a: string, b: string) {
    b != "" && (a == "" || a[0] < b[0] || (a[0] == b[0] && Less(a[1..], b[1..])))
  }

  // The order of Python strings: by the first difference, a prefix first.
  lemma {:induction false} LessIsLexicographic(a: string, b: string)
    ensures Less(a, b) <==>
      exists i :: 0 <= i <= |a| && i < |b| && a[..i] == b[..i] && (i == |a| || a[i] < b[i])
  {
    if a != "" && b != "" && a[0] == b[0] {
      var (c, d) := (a[1..], b[1..]);
      LessIsLexicographic(c, d);
      if i :| 0 <= i <= |c| && i < |d| && c[..i] == d[..i] && (i == |c| || c[i] < d[i]) {
        assert a[..i + 1] == [a[0]] + c[..i] && b[..i + 1] == [b[0]] + d[..i];
      }
      if i :| 0 <= i <= |a| && i < |b| && a[..i] == b[..i] && (i == |a| || a[i] < b[i]) {
        assert i > 0 && c[..i - 1] == a[..i][1..] && d[..i - 1] == b[..i][1..];
      }
    } else if a != "" && b != "" {
      if a[0] < b[0] { assert a[..0] == b[..0]; }
      forall i | 0 < i <= |a| && i < |b| ensures a[..i] != b[..i] {
        assert a[..i][0] == a[0] && b[..i][0] == b[0];
      }
    } else if b != "" {
      assert a[..0] == b[..0];
    }
  }

  lemma {:induction false} LessIsTotal(a: string, b: string)
    ensures a == b || Less(a, b) || Less(b, a)
  {
    if a != "" && b != "" && a[0] == b[0] {
      LessIsTotal(a[1..], b[1..]);
      assert a[1..] == b[1..] ==> a == [a[0]] + a[1..] == b;
    }
  }

  lemma {:induction false} LessIsStrict(a: string, b: string)
    requires Less(a, b)
    ensures !Less(b, a) && a != b
  {
    if a != "" && a[0] == b[0] {
      LessIsStrict(a[1..], b[1..]);
    }
  }

  lemma {:induction false} LessIsTransitive(a: string, b: string, c: string)
    requires Less(a, b) && Less(b, c)
    ensures Less(a, c)
  {
    if a != "" && a[0] == b[0] == c[0] {
      LessIsTransitive(a[1..], b[1..], c[1..]);
    }
  }

  predicate IsSorted(s: seq<string>) {
    forall i, j :: 0 <= i < j < |s| ==> Less(s[i], s[j])
  }

  // `sorted(names)`: the names in ascending order, each once.
  ghost predicate SortedAs(s: seq<string>, names: set<string>) {
    IsSorted(s) && forall x :: x in s <==> x in names
  }

  // There is only one such list, so the order in which a set is walked over does not matter.
  lemma {:induction false} SortedIsUnique(s: seq<string>, t: seq<string>, names: set<string>)
    requires SortedAs(s, names) && SortedAs(t, names)
    ensures s == t
    decreases |s|
  {
    assert t == [] || t[0] in s;
    if s != [] {
      assert s[0] in names && s[0] in t;
      assert t[0] in names && t[0] in s;
      FirstIsLeast(s, t[0]);
      FirstIsLeast(t, s[0]);
      if s[0] != t[0] { LessIsStrict(s[0], t[0]); }
      RestSorted(s, names);
      RestSorted(t, names);
      SortedIsUnique(s[1..], t[1..], names - {s[0]});
      assert s == [s[0]] + s[1..] && t == [t[0]] + t[1..];
    }
  }

  lemma {:induction false} FirstIsLeast(s: seq<string>, x: string)
    requires IsSorted(s) && x in s
    ensures s[0] == x || Less(s[0], x)
  {
    var i :| 0 <= i < |s| && s[i] == x;
  }

  lemma {:induction false} RestSorted(s: seq<string>, names: set<string>)
    requires SortedAs(s, names) && s != []
    ensures SortedAs(s[1..], names - {s[0]})
  {
    forall x | x in s[1..] ensures x in names - {s[0]} {
      var i :| 1 <= i < |s| && s[i] == x;
      LessIsStrict(s[0], s[i]);
    }
    forall x | x in names - {s[0]} ensures x in s[1..] {
      var i :| 0 <= i < |s| && s[i] == x;
      assert s[1..][i - 1] == x;
    }
  }

  // Insertion into a sorted list.
  function Insert(s: seq<string>, x: string): seq<string> {
    if s == [] || Less(x, s[0]) then [x] + s else [s[0]] + Insert(s[1..], x)
  }

  lemma {:induction false} InsertSorts(s: seq<string>, names: set<string>, x: string)
    requires SortedAs(s, names) && x !in names
    ensures SortedAs(Insert(s, x), names + {x})
    decreases |s|
  {
    var r := Insert(s, x);
    if s == [] {
    } else if Less(x, s[0]) {
      forall j | 0 <= j < |s| ensures Less(x, s[j]) {
        if j > 0 { LessIsTransitive(x, s[0], s[j]); }
      }
      assert forall y :: y in r <==> y == x || y in s;
    } else {
      assert s[0] in names;
      LessIsTotal(x, s[0]);
      RestSorted(s, names);
      InsertSorts(s[1..], names - {s[0]}, x);
      var rest := Insert(s[1..], x);
      forall j | 0 <= j < |rest| ensures Less(s[0], rest[j]) {
        assert rest[j] in names - {s[0]} + {x};
        if rest[j] != x {
          FirstIsLeast(s, rest[j]);
        }
      }
      assert forall y :: y in r <==> y == s[0] || y in rest;
    }
  }

  method Sort(names: set<string>) returns (s: seq<string>)
    ensures SortedAs(s, names)
  {
    s := [];
    var todo := names;
    while todo != {}
      invariant todo <= names && SortedAs(s, names - todo)
    {
      var x :| x in todo;
      InsertSorts(s, names - todo, x);
      assert names - todo + {x} == names - (todo - {x});
      s := Insert(s, x);
      todo := todo - {x};
    }
    assert names - {} == names;
  }

  // The text that is hashed: the value of the task, then the names in its closure, in order, each
  // with its value.
  function HashText(own: Option<string>, deps: seq<string>, values: map<string, Option<string>>): string
    requires forall x :: x in deps ==> x in values
  {
    (if own.Some? then own.value else "") + ListText(deps, values)
  }

  function ListText(deps: seq<string>, values: map<string, Option<string>>): string
    requires forall x :: x in deps ==> x in values
  {
    if deps == [] then ""
    else
      var n := |deps| - 1;
      ListText(deps[..n], values) + deps[n] + (if values[deps[n]].Some? then values[deps[n]].value else "")
  }

  function ValuesOf(g: Graph): map<string, Option<string>> {
    map k | k in g :: g[k].value
  }

  // `t` is what is hashed for `task` in `g`.
  ghost predicate IsHashed(g: Graph, task: string, t: string) {
    task in g && exists deps, closure ::
      IsClosure(g, task, closure) && SortedAs(deps, closure) && closure <= g.Keys
        && t == HashText(g[task].value, deps, ValuesOf(g))
  }

  // Two stores that give a task the same node, and the same nodes to everything that it reaches.
  ghost predicate AgreeOn(g: Graph, h: Graph, task: string) {
    && task in g && task in h && g[task] == h[task]
    && forall x :: Reaches(g, task, x) ==> x in g && x in h && g[x] == h[x]
  }

  lemma {:induction false} AgreeingPath(g: Graph, h: Graph, task: string, p: seq<string>)
    requires AgreeOn(g, h, task) && IsPath(h, p) && p[0] == task
    ensures Reaches(g, task, p[|p| - 1])
    decreases |p|
  {
    if |p| == 2 {
      OneStep(g, task, p[1]);
    } else {
      var q := p[..|p| - 1];
      assert IsPath(h, q) && q[|q| - 1] == p[|p| - 2];
      AgreeingPath(g, h, task, q);
      OneMoreStep(g, task, p[|p| - 2], p[|p| - 1]);
    }
  }

  lemma {:induction false} AgreeingForth(g: Graph, h: Graph, task: string, p: seq<string>)
    requires AgreeOn(g, h, task) && IsPath(g, p) && p[0] == task
    ensures Reaches(h, task, p[|p| - 1])
    decreases |p|
  {
    if |p| == 2 {
      OneStep(h, task, p[1]);
    } else {
      var q := p[..|p| - 1];
      assert IsPath(g, q) && q[|q| - 1] == p[|p| - 2];
      assert Reaches(g, task, p[|p| - 2]);
      AgreeingForth(g, h, task, q);
      OneMoreStep(h, task, p[|p| - 2], p[|p| - 1]);
    }
  }

  lemma {:induction false} SameClosure(g: Graph, h: Graph, task: string)
    requires AgreeOn(g, h, task)
    ensures forall x :: Reaches(g, task, x) <==> Reaches(h, task, x)
  {
    forall x | Reaches(h, task, x) ensures Reaches(g, task, x) {
      var p :| IsPath(h, p) && p[0] == task && p[|p| - 1] == x;
      AgreeingPath(g, h, task, p);
    }
    forall x | Reaches(g, task, x) ensures Reaches(h, task, x) {
      var p :| IsPath(g, p) && p[0] == task && p[|p| - 1] == x;
      AgreeingForth(g, h, task, p);
    }
  }

  lemma {:induction false} SameList(deps: seq<string>, v: map<string, Option<string>>, w: map<string, Option<string>>)
    requires forall x :: x in deps ==> x in v && x in w && v[x] == w[x]
    ensures ListText(deps, v) == ListText(deps, w)
  {
    if deps != [] {
      SameList(deps[..|deps| - 1], v, w);
    }
  }

  // What is hashed for a task depends only on its own value and on the names and values in its
  // closure: whatever else the stores hold, and in whatever order sets are walked over.
  lemma {:induction false} HashDependsOnClosure(g: Graph, h: Graph, task: string, t: string, u: string)
    requires AgreeOn(g, h, task) && IsHashed(g, task, t) && IsHashed(h, task, u)
    ensures t == u
  {
    SameClosure(g, h, task);
    var deps, closure :|
      IsClosure(g, task, closure) && SortedAs(deps, closure) && closure <= g.Keys
        && t == HashText(g[task].value, deps, ValuesOf(g));
    var deps', closure' :|
      IsClosure(h, task, closure') && SortedAs(deps', closure') && closure' <= h.Keys
        && u == HashText(h[task].value, deps', ValuesOf(h));
    assert closure == closure';
    SortedIsUnique(deps, deps', closure);
    assert forall x :: x in deps ==> Reaches(g, task, x);
    SameList(deps, ValuesOf(g), ValuesOf(h));
  }

  // ----- a changed value changes what is hashed -----

  // A missing value counts as the empty text.
  function TextOf(value: Option<string>): string {
    if value.Some? then value.value else ""
  }

  // The stores give the task the same closure, and the same texts to it and to that closure, but for `x`.
  ghost predicate DifferAt(g: Graph, h: Graph, task: string, x: string) {
    && task in g && task in h && (x == task || Reaches(g, task, x))
    && (forall y :: Reaches(g, task, y) <==> Reaches(h, task, y))
    && (forall y :: y == task || Reaches(g, task, y) ==>
          y in g && y in h && (TextOf(g[y].value) == TextOf(h[y].value) <==> y != x))
  }

  lemma {:induction false} Cancel(before: string, a: string, b: string, after: string)
    requires before + a + after == before + b + after
    ensures a == b
  {
    var s := before + a + after;
    assert |a| == |b| && s[|before|..|before| + |a|] == a && s[|before|..|before| + |b|] == b;
  }

  // The two texts are the same up to the value of `x`, and behind it.
  lemma {:induction false} ListDiffersAt(deps: seq<string>, v: map<string, Option<string>>,
                                         w: map<string, Option<string>>, x: string)
      returns (before: string, after: string)
    requires NoRepeats(deps) && x in deps && forall y :: y in deps ==> y in v && y in w
    requires forall y :: y in deps && y != x ==> TextOf(v[y]) == TextOf(w[y])
    ensures ListText(deps, v) == before + TextOf(v[x]) + after
    ensures ListText(deps, w) == before + TextOf(w[x]) + after
  {
    var n := |deps| - 1;
    var few := deps[..n];
    assert NoRepeats(few) && forall y :: y in deps <==> y in few || y == deps[n];
    if deps[n] == x {
      assert x !in few;
      SameTexts(few, v, w);
      before, after := ListText(few, v) + x, "";
      assert before + TextOf(v[x]) + after == before + TextOf(v[x]);
      assert before + TextOf(w[x]) + after == before + TextOf(w[x]);
    } else {
      var rest;
      before, rest := ListDiffersAt(few, v, w, x);
      after := rest + (deps[n] + TextOf(v[deps[n]]));
      assert before + TextOf(v[x]) + rest + deps[n] + TextOf(v[deps[n]]) == before + TextOf(v[x]) + after;
      assert before + TextOf(w[x]) + rest + deps[n] + TextOf(w[deps[n]]) == before + TextOf(w[x]) + after;
    }
  }

  lemma {:induction false} SameTexts(deps: seq<string>, v: map<string, Option<string>>,
                                     w: map<string, Option<string>>)
    requires forall y :: y in deps ==> y in v && y in w && TextOf(v[y]) == TextOf(w[y])
    ensures ListText(deps, v) == ListText(deps, w)
  {
    if deps != [] {
      SameTexts(deps[..|deps| - 1], v, w);
    }
  }

  lemma {:induction false} SortedHasNoRepeats(s: seq<string>)
    requires IsSorted(s)
    ensures NoRepeats(s)
  {
    forall i, j | 0 <= i < j < |s| ensures s[i] != s[j] {
      LessIsStrict(s[i], s[j]);
    }
  }

  // With the same closure, a change of one value, of the task itself or of one name in the closure,
  // changes what is hashed.
  lemma {:induction false} HashTellsValues(g: Graph, h: Graph, task: string, x: string, t: string, u: string)
    requires DifferAt(g, h, task, x) && IsHashed(g, task, t) && IsHashed(h, task, u)
    ensures t != u
  {
    hide ListText, Reaches;
    var deps, closure :|
      IsClosure(g, task, closure) && SortedAs(deps, closure) && closure <= g.Keys
        && t == HashText(g[task].value, deps, ValuesOf(g));
    var deps', closure' :|
      IsClosure(h, task, closure') && SortedAs(deps', closure') && closure' <= h.Keys
        && u == HashText(h[task].value, deps', ValuesOf(h));
    assert closure == closure';
    SortedIsUnique(deps, deps', closure);
    SortedHasNoRepeats(deps);
    TextsDiffer(TextOf(g[task].value), TextOf(h[task].value), deps, ValuesOf(g), ValuesOf(h), task, x);
  }

  lemma {:induction false} TextsDiffer(own: string, own': string, deps: seq<string>, v: map<string, Option<string>>,
                                       w: map<string, Option<string>>, task: string, x: string)
    requires NoRepeats(deps) && forall y :: y in deps ==> y in v && y in w
    requires forall y :: y in deps ==> (TextOf(v[y]) == TextOf(w[y]) <==> y != x)
    requires (own == own' <==> task != x) && (x == task || x in deps)
    requires x == task && x in deps ==> own == TextOf(v[x]) && own' == TextOf(w[x])
    ensures own + ListText(deps, v) != own' + ListText(deps, w)
  {
    hide ListText;
    if x !in deps {
      SameTexts(deps, v, w);
      if own + ListText(deps, v) == own' + ListText(deps, w) {
        assert "" + own == own && "" + own' == own';
        Cancel("", own, own', ListText(deps, v));
      }
    } else {
      var before, after := ListDiffersAt(deps, v, w, x);
      MiddleDiffers(own, own', before, TextOf(v[x]), TextOf(w[x]), after);
    }
  }

  lemma {:induction false} MiddleDiffers(own: string, own': string, before: string, a: string, b: string,
                                         after: string)
    requires a != b && (own == own' || (own == a && own' == b))
    ensures own + (before + a + after) != own' + (before + b + after)
  {
    var (s, t) := (own + (before + a + after), own' + (before + b + after));
    if own == own' {
      assert s == (own + before) + a + after && t == (own + before) + b + after;
      if s == t {
        Cancel(own + before, a, b, after);
      }
    } else {
      assert |s| == 2 * |a| + |before| + |after| && |t| == 2 * |b| + |before| + |after|;
      assert s[..|a|] == a && t[..|b|] == b;
    }
  }

  // So does another name in its place among the sorted names of the closure.
  lemma {:induction false} ListTellsNames(own: string, before: seq<string>, x: string, y: string, after: seq<string>,
                                          v: map<string, Option<string>>, w: map<string, Option<string>>)
    requires forall k :: k in before + [x] + after ==> k in v
    requires forall k :: k in before + [y] + after ==> k in w
    requires forall k :: k in before + after ==> TextOf(v[k]) == TextOf(w[k])
    requires x != y && TextOf(v[x]) == TextOf(w[y])
    ensures HashText(Some(own), before + [x] + after, v) != HashText(Some(own), before + [y] + after, w)
  {
    hide ListText, TextOf;
    ListOf(before, x, after, v);
    ListOf(before, y, after, w);
    SameTexts(before, v, w);
    SameTexts(after, v, w);
    NamesDiffer(own, ListText(before, v), x, y, TextOf(v[x]), ListText(after, v));
  }

  lemma NamesDiffer(own: string, a: string, x: string, y: string, value: string, b: string)
    requires x != y
    ensures own + (a + x + value + b) != own + (a + y + value + b)
  {
    assert own + (a + x + value + b) == (own + a) + x + (value + b);
    assert own + (a + y + value + b) == (own + a) + y + (value + b);
    if own + (a + x + value + b) == own + (a + y + value + b) {
      Cancel(own + a, x, y, value + b);
    }
  }

  lemma {:induction false} ListOf(before: seq<string>, x: string, after: seq<string>, v: map<string, Option<string>>)
    requires forall k :: k in before + [x] + after ==> k in v
    ensures ListText(before + [x] + after, v) == ListText(before, v) + x + TextOf(v[x]) + ListText(after, v)
    decreases |after|
  {
    var all := before + [x] + after;
    if after == [] {
      LastOf(before, x, v);
      assert all == before + [x];
    } else {
      var m := |after| - 1;
      var few := before + [x] + after[..m];
      assert all == few + [after[m]] && after == after[..m] + [after[m]];
      hide ListText;
      ListOf(before, x, after[..m], v);
      LastOf(few, after[m], v);
      LastOf(after[..m], after[m], v);
      FourParts(ListText(before, v) + x + TextOf(v[x]), ListText(after[..m], v), after[m], TextOf(v[after[m]]));
    }
  }

  lemma LastOf(few: seq<string>, x: string, v: map<string, Option<string>>)
    requires forall k :: k in few + [x] ==> k in v
    ensures ListText(few + [x], v) == ListText(few, v) + x + TextOf(v[x])
  {
    assert (few + [x])[..|few|] == few && (few + [x])[|few|] == x;
  }

  lemma FourParts(a: string, b: string, c: string, d: string)
    ensures a + b + c + d == a + (b + c + d)
  {}

  // `generate_dependency_hash`, up to the hash function itself
  method GenerateDependencyHash(g: Graph, tasklist: seq<string>)
      returns (taskdeps: map<string, set<string>>, basedata: map<string, string>)
    requires Closed(g) && forall t :: t in tasklist ==> t in g
    ensures taskdeps.Keys == basedata.Keys && forall t :: t in taskdeps <==> t in tasklist
    ensures forall t :: t in taskdeps ==> IsClosure(g, t, taskdeps[t]) && IsHashed(g, t, basedata[t])
  {
    taskdeps, basedata := map[], map[];
    for i := 0 to |tasklist|
      invariant taskdeps.Keys == basedata.Keys && forall t :: t in taskdeps <==> t in tasklist[..i]
      invariant forall t :: t in taskdeps ==> IsClosure(g, t, taskdeps[t]) && IsHashed(g, t, basedata[t])
    {
      assert tasklist[..i + 1] == tasklist[..i] + [tasklist[i]];
      var seen, data := HashOne(g, tasklist[i]);
      taskdeps := taskdeps[tasklist[i] := seen];
      basedata := basedata[tasklist[i] := data];
    }
    assert tasklist[..|tasklist|] == tasklist;
  }

  method HashOne(g: Graph, task: string) returns (seen: set<string>, data: string)
    requires Closed(g) && task in g
    ensures IsClosure(g, task, seen) && IsHashed(g, task, data)
  {
    seen := FollowKnown(g, task);
    FollowingInside(g, task, seen, {});
    FollowingEnds(g, task, seen);
    hide IsClosure, Following;
    var alldeps := Sort(seen);
    var own := g[task].value;
    data := ListValues(g, if own.None? then "" else own.value, alldeps);
    assert data == HashText(own, alldeps, ValuesOf(g));
  }

  method ListValues(g: Graph, start: string, alldeps: seq<string>) returns (data: string)
    requires forall x :: x in alldeps ==> x in g
    ensures data == start + ListText(alldeps, ValuesOf(g))
  {
    data := start;
    for i := 0 to |alldeps|
      invariant data == start + ListText(alldeps[..i], ValuesOf(g))
    {
      var dep := alldeps[i];
      var more := alldeps[..i + 1];
      assert more[..i] == alldeps[..i] && more[i] == dep;
      ghost var before := ListText(alldeps[..i], ValuesOf(g));
      var value := if g[dep].value.Some? then g[dep].value.value else "";
      assert ListText(more, ValuesOf(g)) == before + dep + value;
      assert start + before + dep + value == start + (before + dep + value);
      data := data + dep;
      data := data + value;
    }
    assert alldeps[..|alldeps|] == alldeps;
  }

  // The loop of `generate_dependency_hash`, on what has been looked up already.
  method FollowKnown(g: Graph, task: string) returns (seen: set<string>)
    requires Closed(g) && task in g
    ensures Following(g, task, seen, {})
  {
    seen := {};
    var newdeps := g[task].deps;
    FollowingStarts(g, task);
    hide *;
    while newdeps != {}
      invariant Following(g, task, seen, newdeps)
      decreases |g.Keys - seen|
    {
      FollowingInside(g, task, seen, newdeps);
      StrictlyMore(g, seen, newdeps);
      FollowingGoesOn(g, task, seen, newdeps);
      var nextdeps := newdeps;
      seen := seen + nextdeps;
      newdeps := AllDeps(g, nextdeps);
      newdeps := newdeps - seen;
    }
  }

  method AllDeps(g: Graph, names: set<string>) returns (deps: set<string>)
    requires names <= g.Keys
    ensures deps == DepsOf(g, names)
  {
    deps := {};
    var todo := names;
    while todo != {}
      invariant todo <= names && deps == DepsOf(g, names - todo)
    {
      var dep :| dep in todo;
      deps := deps + g[dep].deps;
      todo := todo - {dep};
    }
  }
}
