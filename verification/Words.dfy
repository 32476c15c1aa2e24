// Splitting on whitespace, and dropping words as `:remove` does (data_smart.py:875-891).
module Words {
  // What `\s` and `str.split` take for whitespace: `str.isspace` of one character.
  predicate IsSpace(c: char) {
    '\t' <= c <= '\r' || '\U{1C}' <= c <= ' ' || '\U{2000}' <= c <= '\U{200A}'
    || c in {'\U{85}', '\U{A0}', '\U{1680}', '\U{2028}', '\U{2029}', '\U{202F}', '\U{205F}', '\U{3000}'}
  }

  // The end of the word that starts `s`.
  function WordEnd(s: string): (e: nat)
    ensures e <= |s|
    ensures e < |s| ==> IsSpace(s[e])
    ensures forall i :: 0 <= i < e ==> !IsSpace(s[i])
  {
    if s == "" || IsSpace(s[0]) then 0 else 1 + WordEnd(s[1..])
  }

  // re.split(r'(\s)', s) without the empty pieces: words and single whitespace characters.
  function Pieces(s: string): seq<string> {
    if s == "" then []
    else if IsSpace(s[0]) then [s[..1]] + Pieces(s[1..])
    else [s[..WordEnd(s)]] + Pieces(s[WordEnd(s)..])
  }

  // s.split()
  function Fields(s: string): seq<string> {
    if s == "" then []
    else if IsSpace(s[0]) then Fields(s[1..])
    else [s[..WordEnd(s)]] + Fields(s[WordEnd(s)..])
  }

  function Spaces(s: string): string {
    if s == "" then "" else (if IsSpace(s[0]) then s[..1] else "") + Spaces(s[1..])
  }

  // `s` without the words in `gone`.
  function Drop(s: string, gone: set<string>): string {
    if s == "" then ""
    else if IsSpace(s[0]) then s[..1] + Drop(s[1..], gone)
    else (if s[..WordEnd(s)] in gone then "" else s[..WordEnd(s)]) + Drop(s[WordEnd(s)..], gone)
  }

  function Keep(words: seq<string>, gone: set<string>): seq<string> {
    if words == [] then []
    else (if words[0] in gone then [] else [words[0]]) + Keep(words[1..], gone)
  }

  predicate IsWord(w: string) {
    w != "" && forall i :: 0 <= i < |w| ==> !IsSpace(w[i])
  }

  lemma {:induction false} FieldsAreWords(s: string)
    ensures forall w :: w in Fields(s) ==> IsWord(w)
  {
    if s != "" {
      FieldsAreWords(if IsSpace(s[0]) then s[1..] else s[WordEnd(s)..]);
    }
  }

  // A word in front of whitespace, or of nothing, is read back as that word.
  lemma {:induction false} WordFirst(w: string, rest: string)
    requires IsWord(w) && (rest == "" || IsSpace(rest[0]))
    ensures Fields(w + rest) == [w] + Fields(rest)
    ensures Spaces(w + rest) == Spaces(rest)
  {
    var s := w + rest;
    assert WordEnd(s) == |w| by {
      assert forall i :: 0 <= i < |w| ==> s[i] == w[i];
      assert rest != "" ==> s[|w|] == rest[0];
    }
    assert s[..|w|] == w && s[|w|..] == rest;
    SpacesSkipWord(w, rest);
  }

  lemma {:induction false} SpacesSkipWord(w: string, rest: string)
    requires forall i :: 0 <= i < |w| ==> !IsSpace(w[i])
    ensures Spaces(w + rest) == Spaces(rest)
  {
    if w == "" {
      assert w + rest == rest;
    } else {
      assert (w + rest)[1..] == w[1..] + rest;
      SpacesSkipWord(w[1..], rest);
    }
  }

  // An active `:remove` drops exactly the named words, and keeps all other words and all
  // whitespace in order.
  lemma {:induction false} DropIsExact(s: string, gone: set<string>)
    ensures Fields(Drop(s, gone)) == Keep(Fields(s), gone)
    ensures Spaces(Drop(s, gone)) == Spaces(s)
    ensures Drop(s, gone) != "" && (s != "" && IsSpace(s[0])) ==> Drop(s, gone)[0] == s[0]
  {
    hide IsSpace;
    if s != "" {
      if IsSpace(s[0]) {
        DropIsExact(s[1..], gone);
        assert (s[..1] + Drop(s[1..], gone))[1..] == Drop(s[1..], gone);
      } else {
        var e := WordEnd(s);
        var w, rest := s[..e], s[e..];
        assert s == w + rest;
        DropIsExact(rest, gone);
        SpacesSkipWord(w, rest);
        assert Fields(s) == [w] + Fields(rest) && Fields(s)[1..] == Fields(rest);
        if w in gone {
          assert Drop(s, gone) == Drop(rest, gone);
        } else {
          WordFirst(w, Drop(rest, gone));
        }
      }
    }
  }

  // With nothing to drop the text stays as it is.
  lemma {:induction false} DropNothing(s: string, gone: set<string>)
    requires forall w :: w in Fields(s) ==> w !in gone
    ensures Drop(s, gone) == s
  {
    if s != "" {
      if IsSpace(s[0]) {
        DropNothing(s[1..], gone);
      } else {
        assert Fields(s)[0] == s[..WordEnd(s)];
        assert forall w :: w in Fields(s[WordEnd(s)..]) ==> w in Fields(s);
        DropNothing(s[WordEnd(s)..], gone);
      }
    }
  }

  // The program's loop over the pieces.
  method DropWords(s: string, gone: set<string>) returns (kept: string)
    requires forall w :: w in gone ==> IsWord(w)
    ensures kept == Drop(s, gone)
  {
    var pieces := Pieces(s);
    kept := "";
    for i := 0 to |pieces|
      invariant kept + DropPieces(pieces[i..], gone) == DropPieces(pieces, gone)
    {
      var v := pieces[i];
      assert pieces[i..][0] == v && pieces[i..][1..] == pieces[i + 1..];
      if v !in gone {
        kept := kept + v;
      }
    }
    assert pieces[|pieces|..] == [];
    DropByPieces(s, gone);
  }

  ghost function DropPieces(pieces: seq<string>, gone: set<string>): string {
    if pieces == [] then "" else (if pieces[0] in gone then "" else pieces[0]) + DropPieces(pieces[1..], gone)
  }

  lemma {:induction false} DropByPieces(s: string, gone: set<string>)
    requires forall w :: w in gone ==> IsWord(w)
    ensures DropPieces(Pieces(s), gone) == Drop(s, gone)
  {
    if s != "" {
      if IsSpace(s[0]) {
        assert IsSpace(s[..1][0]);
        DropByPieces(s[1..], gone);
        assert Pieces(s)[1..] == Pieces(s[1..]);
      } else {
        DropByPieces(s[WordEnd(s)..], gone);
        assert Pieces(s)[1..] == Pieces(s[WordEnd(s)..]);
      }
    }
  }
}
