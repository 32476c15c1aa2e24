// The names of recipe variants (cache.py:341-379): a file, a class such as `native`, and a
// multiconfig, in one string and back.
module VirtualNames {
  import opened Prelude
  import opened Text

  datatype Name = Name(fn: string, cls: string, mc: string)

  // `startswith('mc:') and count(':') >= 2`
  predicate HasMulticonfig(s: string) {
    "mc:" <= s && ':' in s[3..]
  }

  // `split(':', 2)` of such a name: the multiconfig and the rest.
  function SplitMulticonfig(s: string): (string, string)
    requires HasMulticonfig(s)
  {
    var i := Find(s[3..], ':');
    (s[3..][..i], s[3..][i + 1..])
  }

  // `virtualfn2realfn`
  function Decode(virtualfn: string): Name {
    var (mc, rest) := if HasMulticonfig(virtualfn) then SplitMulticonfig(virtualfn) else ("", virtualfn);
    DecodeRest(rest, mc)
  }

  function DecodeRest(rest: string, mc: string): Name {
    if "virtual:" <= rest then
      var elems := Split(rest, ':');
      Name(elems[|elems| - 1], if |elems| < 2 then "" else Join(elems[1..|elems| - 1], ':'), mc)
    else Name(rest, "", mc)
  }

  // `realfn2virtual`
  function Encode(n: Name): string {
    var inner := if n.cls != "" then "virtual:" + n.cls + ":" + n.fn else n.fn;
    if n.mc != "" then "mc:" + n.mc + ":" + inner else inner
  }

  // `variant2virtual`
  function Variant(realfn: string, variant: string): string {
    if variant == "" then realfn
    else if HasMulticonfig(variant) then
      var elems := Split(variant, ':');
      if |elems| > 2 && elems[2] != "" then "mc:" + elems[1] + ":virtual:" + Join(elems[2..], ':') + ":" + realfn
      else "mc:" + (if |elems| > 1 then elems[1] else "") + ":" + realfn
    else "virtual:" + variant + ":" + realfn
  }

  // ----- exactly what can be decoded -----

  // A name that comes back as it was: no colon in the multiconfig, none in a file that has a
  // class, and otherwise nothing that looks like a prefix.
  predicate Decodable(n: Name) {
    && ':' !in n.mc
    && if n.cls != "" then ':' !in n.fn else !("virtual:" <= n.fn) && (n.mc == "" ==> !HasMulticonfig(n.fn))
  }

  lemma {:induction false} SplitVirtual(cls: string, fn: string)
    requires ':' !in fn
    ensures Split("virtual:" + cls + ":" + fn, ':') == ["virtual"] + Split(cls, ':') + [fn]
  {
    var x := "virtual:" + cls;
    var s := "virtual:" + cls + ":" + fn;
    assert s == x + [':'] + fn;
    SplitSnoc(x, ':', fn);
    FirstPiece("virtual", cls);
    assert x == "virtual" + ":" + cls;
  }

  lemma {:induction false} FirstPiece(head: string, rest: string)
    requires ':' !in head
    ensures Split(head + ":" + rest, ':') == [head] + Split(rest, ':')
    ensures Find(head + ":" + rest, ':') == |head|
  {
    hide Find;
    var s := head + ":" + rest;
    assert s[|head|] == ':' && forall j | 0 <= j < |head| :: s[j] == head[j];
    assert s[..|head|] == head && s[|head| + 1..] == rest;
  }

  // The class and the file come apart again exactly when the file holds no colon.
  lemma {:induction false} InnerRoundTrip(cls: string, fn: string)
    requires cls != ""
    ensures var elems := Split("virtual:" + cls + ":" + fn, ':');
      |elems| >= 2 && ((elems[|elems| - 1] == fn && Join(elems[1..|elems| - 1], ':') == cls) <==> ':' !in fn)
  {
    var s := "virtual:" + cls + ":" + fn;
    var elems := Split(s, ':');
    SplitPieces(s, ':');
    FirstPiece("virtual", cls + ":" + fn);
    assert s == "virtual" + ":" + (cls + ":" + fn);
    if ':' !in fn {
      SplitVirtual(cls, fn);
      assert elems[1..|elems| - 1] == Split(cls, ':');
      JoinSplit(cls, ':');
    }
  }

  lemma {:induction false} RestRoundTrip(n: Name, inner: string)
    requires inner == if n.cls != "" then "virtual:" + n.cls + ":" + n.fn else n.fn
    ensures DecodeRest(inner, n.mc) == n <==> if n.cls != "" then ':' !in n.fn else !("virtual:" <= n.fn)
  {
    hide Split, Join;
    if n.cls != "" {
      InnerRoundTrip(n.cls, n.fn);
      assert "virtual:" <= inner;
    } else if "virtual:" <= n.fn {
      SplitPieces(n.fn, ':');
      assert n.fn[7] == ':' && ':' in n.fn;
      assert ':' !in DecodeRest(inner, n.mc).fn;
    }
  }

  // What decoding finds in the rest is no longer than the rest.
  lemma {:induction false} DecodedIsShort(rest: string, mc: string)
    ensures |DecodeRest(rest, mc).fn| <= |rest|
  {
    if "virtual:" <= rest {
      PiecesAreShort(rest, ':');
    }
  }

  lemma {:induction false} PiecesAreShort(s: string, c: char)
    ensures forall o :: o in Split(s, c) ==> |o| <= |s|
    decreases |s|
  {
    var i := Find(s, c);
    if i < |s| {
      PiecesAreShort(s[i + 1..], c);
    }
  }

  // Decoding undoes encoding for the decodable names and for no others.
  lemma {:induction false} RoundTrip(n: Name)
    ensures Decode(Encode(n)) == n <==> Decodable(n)
  {
    hide DecodeRest, Find;
    var inner := if n.cls != "" then "virtual:" + n.cls + ":" + n.fn else n.fn;
    RestRoundTrip(n, inner);
    if n.mc != "" {
      McPiece(n.mc, inner);
      SameMulticonfig(SplitMulticonfig(Encode(n)).1, SplitMulticonfig(Encode(n)).0);
    } else if HasMulticonfig(inner) {
      assert n.cls == "" by { assert inner[0] == 'm'; }
      var (mc, rest) := SplitMulticonfig(inner);
      DecodedIsShort(rest, mc);
    }
  }

  lemma {:induction false} SameMulticonfig(rest: string, mc: string)
    ensures DecodeRest(rest, mc).mc == mc
  {}

  lemma {:induction false} McPiece(mc: string, inner: string)
    ensures var s := "mc:" + mc + ":" + inner;
      HasMulticonfig(s) && (SplitMulticonfig(s).0 == mc <==> ':' !in mc)
      && (':' !in mc ==> SplitMulticonfig(s).1 == inner)
  {
    var s := "mc:" + mc + ":" + inner;
    assert s[3..] == mc + ":" + inner && s[3..][|mc|] == ':';
    if ':' !in mc {
      FirstPiece(mc, inner);
    }
  }

  // Two decodable names never share an encoding.
  lemma {:induction false} EncodeIsInjective(m: Name, n: Name)
    requires Decodable(m) && Decodable(n) && Encode(m) == Encode(n)
    ensures m == n
  {
    RoundTrip(m);
    RoundTrip(n);
  }

  // ----- variants -----

  // What a variant stands for: a class, a multiconfig, or both.
  function VariantName(realfn: string, variant: string): Name {
    if HasMulticonfig(variant) then
      var (mc, cls) := SplitMulticonfig(variant);
      Name(realfn, cls, mc)
    else Name(realfn, variant, "")
  }

  // A multiconfig that is there, and a class that does not start with a colon.
  predicate ValidVariant(variant: string) {
    HasMulticonfig(variant) ==>
      var (mc, cls) := SplitMulticonfig(variant);
      mc != "" && (cls == "" || cls[0] != ':')
  }

  lemma {:induction false} SplitVariant(variant: string)
    requires HasMulticonfig(variant)
    ensures var (mc, cls) := SplitMulticonfig(variant);
      variant == "mc:" + mc + ":" + cls && ':' !in mc && Split(variant, ':') == ["mc", mc] + Split(cls, ':')
  {
    hide Find, Split;
    var (mc, cls) := SplitMulticonfig(variant);
    var rest := variant[3..];
    FirstPiece("mc", rest);
    FirstPiece(mc, cls);
    assert rest == mc + ":" + cls;
    assert variant == "mc:" + rest == "mc" + ":" + rest;
    assert "mc:" + (mc + ":" + cls) == "mc:" + mc + ":" + cls;
    assert ["mc"] + ([mc] + Split(cls, ':')) == ["mc", mc] + Split(cls, ':');
  }

  lemma {:induction false} FirstPieceEmpty(cls: string)
    ensures Split(cls, ':')[0] == "" <==> cls == "" || cls[0] == ':'
  {}

  lemma {:induction false} PiecesOf(variant: string)
    requires HasMulticonfig(variant)
    ensures var (mc, cls) := SplitMulticonfig(variant); var elems := Split(variant, ':');
      |elems| > 2 && elems[1] == mc && Join(elems[2..], ':') == cls && (elems[2] == "" <==> cls == "" || cls[0] == ':')
  {
    hide Find, Split;
    var (mc, cls) := SplitMulticonfig(variant);
    SplitVariant(variant);
    FirstPieceEmpty(cls);
    var elems := Split(variant, ':');
    assert elems[2..] == Split(cls, ':');
    JoinSplit(cls, ':');
  }

  // `variant2virtual` and `realfn2virtual` agree on what a variant stands for, for the valid variants
  // and for no others.
  lemma {:induction false} VariantIsEncoded(realfn: string, variant: string)
    ensures Variant(realfn, variant) == Encode(VariantName(realfn, variant)) <==> ValidVariant(variant)
  {
    hide Find, Split, Join;
    if variant != "" && HasMulticonfig(variant) {
      var (mc, cls) := SplitMulticonfig(variant);
      PiecesOf(variant);
      assert "mc:" + mc + ":virtual:" + cls + ":" + realfn == "mc:" + mc + ":" + ("virtual:" + cls + ":" + realfn);
    }
  }

  // Two variants of files never share a name.
  lemma {:induction false} VariantIsInjective(f: string, g: string, v: string, w: string)
    requires ':' !in f && ':' !in g && ValidVariant(v) && ValidVariant(w)
    requires Variant(f, v) == Variant(g, w)
    ensures f == g && v == w
  {
    VariantIsEncoded(f, v);
    VariantIsEncoded(g, w);
    VariantIsDecodable(f, v);
    VariantIsDecodable(g, w);
    EncodeIsInjective(VariantName(f, v), VariantName(g, w));
    if HasMulticonfig(v) { SplitVariant(v); }
    if HasMulticonfig(w) { SplitVariant(w); }
  }

  lemma {:induction false} VariantIsDecodable(fn: string, variant: string)
    requires ':' !in fn
    ensures Decodable(VariantName(fn, variant))
  {
    PrefixHasColon(fn);
    if HasMulticonfig(variant) { SplitVariant(variant); }
  }

  // Without that, different variants do share a name: the class after a second colon is dropped.
  lemma {:induction false} EmptyPieceIsDropped(fn: string, mc: string, cls: string)
    requires ':' !in mc
    ensures Variant(fn, "mc:" + mc + "::" + cls) == Variant(fn, "mc:" + mc + ":")
  {
    McPiece(mc, ":" + cls);
    McPiece(mc, "");
    assert "mc:" + mc + "::" + cls == "mc:" + mc + ":" + (":" + cls) && "mc:" + mc + ":" == "mc:" + mc + ":" + "";
    ClassIsDropped(fn, "mc:" + mc + ":" + (":" + cls));
    ClassIsDropped(fn, "mc:" + mc + ":" + "");
  }

  lemma {:induction false} ClassIsDropped(fn: string, variant: string)
    requires HasMulticonfig(variant)
    requires var cls := SplitMulticonfig(variant).1; cls == "" || cls[0] == ':'
    ensures Variant(fn, variant) == "mc:" + SplitMulticonfig(variant).0 + ":" + fn
  {
    hide Find, Split;
    PiecesOf(variant);
  }

  lemma {:induction false} PrefixHasColon(fn: string)
    ensures "virtual:" <= fn ==> ':' in fn
  {
    if "virtual:" <= fn {
      assert fn[7] == ':';
    }
  }
}
