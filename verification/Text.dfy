// The string operations of Python that BitBake's datastore relies on.
module Text {
  predicate EndsWith(s: string, suffix: string) {
    |suffix| <= |s| && s[|s| - |suffix|..] == suffix
  }

  // `pat in s`
  predicate Contains(s: string, pat: string) {
    pat <= s || (s != "" && Contains(s[1..], pat))
  }

  ghost predicate Occurs<T>(s: seq<T>, pat: seq<T>) {
    exists i :: 0 <= i <= |s| && pat <= s[i..]
  }

  // s.find(c), with |s| for "not there"
  function Find<T(==)>(s: seq<T>, c: T): (i: nat)
    ensures i <= |s|
    ensures i < |s| ==> s[i] == c
    ensures forall x :: 0 <= x < i ==> s[x] != c
  {
    if s == [] || s[0] == c then 0 else 1 + Find(s[1..], c)
  }

  // s.split(c)
  function Split(s: string, c: char): (segs: seq<string>)
    ensures segs != []
    decreases |s|
  {
    var i := Find(s, c);
    if i == |s| then [s] else [s[..i]] + Split(s[i + 1..], c)
  }

  function Join(segs: seq<string>, c: char): string {
    if segs == [] then ""
    else if |segs| == 1 then segs[0]
    else Join(segs[..|segs| - 1], c) + [c] + segs[|segs| - 1]
  }

  // s.replace(pat, fill), with the Python convention for an empty pattern left out
  function Replace<T(==)>(s: seq<T>, pat: seq<T>, fill: seq<T>): seq<T> {
    if |s| < |pat| || pat == [] then s
    else if pat <= s then fill + Replace(s[|pat|..], pat, fill)
    else [s[0]] + Replace(s[1..], pat, fill)
  }

  // ----- split and join -----

  lemma {:induction false} SplitSnoc(x: string, c: char, o: string)
    requires c !in o
    ensures Split(x + [c] + o, c) == Split(x, c) + [o]
    decreases |x|
  {
    var s := x + [c] + o;
    var i := Find(s, c);
    assert s[|x|] == c;
    assert s[..|x|] == x;
    if i < |x| {
      assert x[i] == c;
      assert Find(x, c) == i;
      assert s[i + 1..] == x[i + 1..] + [c] + o;
      assert s[..i] == x[..i];
      SplitSnoc(x[i + 1..], c, o);
    } else {
      assert i == |x|;
      assert s[i + 1..] == o;
      assert c !in x;
      assert Split(o, c) == [o];
    }
  }

  lemma {:induction false} SplitPieces(s: string, c: char)
    ensures forall o :: o in Split(s, c) ==> c !in o
    decreases |s|
  {
    var i := Find(s, c);
    if i < |s| {
      SplitPieces(s[i + 1..], c);
    }
  }

  lemma {:induction false} JoinCons(o: string, segs: seq<string>, c: char)
    requires segs != []
    ensures Join([o] + segs, c) == o + [c] + Join(segs, c)
  {
    var all := [o] + segs;
    if |segs| == 1 {
      assert all[..1] == [o];
    } else {
      assert all[..|segs|] == [o] + segs[..|segs| - 1];
      JoinCons(o, segs[..|segs| - 1], c);
    }
  }

  lemma {:induction false} JoinSplit(s: string, c: char)
    ensures Join(Split(s, c), c) == s
    decreases |s|
  {
    var i := Find(s, c);
    if i < |s| {
      JoinSplit(s[i + 1..], c);
      JoinCons(s[..i], Split(s[i + 1..], c), c);
    }
  }

  lemma {:induction false} SplitJoin(segs: seq<string>, c: char)
    requires segs != [] && forall o :: o in segs ==> c !in o
    ensures Split(Join(segs, c), c) == segs
  {
    if |segs| > 1 {
      var init := segs[..|segs| - 1];
      SplitJoin(init, c);
      SplitSnoc(Join(init, c), c, segs[|segs| - 1]);
    } else {
      assert segs == [segs[0]] && c !in segs[0];
    }
  }

  // ----- replace -----

  lemma {:induction false} ReplaceAbsent<T>(s: seq<T>, pat: seq<T>, fill: seq<T>)
    requires pat != [] && !Occurs(s, pat)
    ensures Replace(s, pat, fill) == s
    decreases |s|
  {
    if |pat| <= |s| {
      assert s[0..] == s;
      forall i | 0 <= i <= |s[1..]| ensures !(pat <= s[1..][i..]) {
        assert s[1..][i..] == s[i + 1..];
      }
      ReplaceAbsent(s[1..], pat, fill);
    }
  }

  // Removing a pattern that occurs makes the text shorter.
  lemma {:induction false} RemoveShrinks<T>(s: seq<T>, pat: seq<T>)
    requires pat != []
    ensures |Replace(s, pat, [])| <= |s|
    ensures Occurs(s, pat) ==> |Replace(s, pat, [])| < |s|
    decreases |s|
  {
    if |pat| <= |s| {
      if pat <= s {
        RemoveShrinks(s[|pat|..], pat);
      } else {
        RemoveShrinks(s[1..], pat);
        if Occurs(s, pat) {
          var i :| 0 <= i <= |s| && pat <= s[i..];
          assert s[0..] == s && i > 0;
          assert s[1..][i - 1..] == s[i..];
        }
      }
    }
  }

  // When the pattern starts with a marker that it does not contain again, removing it from
  // `x + pat` is removing it from `x`.
  lemma {:induction false} RemoveTail(x: string, pat: string)
    requires pat != "" && pat[0] !in pat[1..]
    ensures Replace(x + pat, pat, "") == Replace(x, pat, "")
    decreases |x|
  {
    var s := x + pat;
    if 0 < |x| < |pat| {
      assert pat[1..][|x| - 1] == pat[|x|];
    }
    if x == "" {
      assert s == pat && s[|pat|..] == "";
    } else if pat <= s {
      if |x| < |pat| {
        assert false;
      } else {
        assert pat == s[..|pat|] == x[..|pat|];
        assert s[|pat|..] == x[|pat|..] + pat;
        RemoveTail(x[|pat|..], pat);
      }
    } else {
      assert s[1..] == x[1..] + pat;
      RemoveTail(x[1..], pat);
      if |pat| <= |x| {
        assert s[..|pat|] == x[..|pat|];
      }
    }
  }

  // `str.replace(":" + o, "")` on an override that ends in `:o` strips exactly that last
  // segment if and only if `:o` does not also occur earlier in it.
  lemma {:induction false} StripsLastSegment(x: string, pat: string)
    requires pat != "" && pat[0] !in pat[1..]
    ensures Replace(x + pat, pat, "") == x <==> !Occurs(x, pat)
  {
    RemoveTail(x, pat);
    if Occurs(x, pat) {
      RemoveShrinks(x, pat);
    } else {
      ReplaceAbsent(x, pat, "");
    }
  }
}
