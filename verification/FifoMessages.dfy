// Messages from shell functions (build.py:478-516): a stream of NUL-terminated messages that arrives
// in arbitrary pieces. Bytes are modelled as characters.
module FifoMessages {
  import opened Prelude
  import opened Text

  const NUL := '\0'

  // The complete messages of a stream, and the unterminated rest.
  function Messages(s: string): seq<string>
    decreases |s|
  {
    var i := Find(s, NUL);
    if i == |s| then [] else [s[..i]] + Messages(s[i + 1..])
  }

  function Tail(s: string): (t: string)
    ensures NUL !in t
    decreases |s|
  {
    var i := Find(s, NUL);
    if i == |s| then s else Tail(s[i + 1..])
  }

  function Terminated(messages: seq<string>): string {
    if messages == [] then "" else messages[0] + [NUL] + Terminated(messages[1..])
  }

  lemma {:induction false} NulAfter(m: string, rest: string)
    requires NUL !in m
    ensures Find(m + [NUL] + rest, NUL) == |m|
  {
    var s := m + [NUL] + rest;
    assert s[|m|] == NUL && forall j | 0 <= j < |m| :: s[j] == m[j];
  }

  // A stream is its messages, each with its NUL, and its tail; and no other messages and no other
  // tail without a NUL make up the same stream.
  lemma {:induction false} StreamIsItsMessages(s: string)
    ensures Terminated(Messages(s)) + Tail(s) == s
    ensures forall m :: m in Messages(s) ==> NUL !in m
    decreases |s|
  {
    hide Find;
    var i := Find(s, NUL);
    if i < |s| {
      StreamIsItsMessages(s[i + 1..]);
      assert s == s[..i] + [NUL] + s[i + 1..];
      assert Terminated(Messages(s)) == s[..i] + [NUL] + Terminated(Messages(s[i + 1..]));
    }
  }

  lemma {:induction false} MessagesComeBack(messages: seq<string>, tail: string)
    requires (forall m :: m in messages ==> NUL !in m) && NUL !in tail
    ensures Messages(Terminated(messages) + tail) == messages && Tail(Terminated(messages) + tail) == tail
    decreases |messages|
  {
    var s := Terminated(messages) + tail;
    if messages == [] {
      assert s == tail;
    } else {
      var rest := Terminated(messages[1..]) + tail;
      assert s == messages[0] + [NUL] + rest;
      NulAfter(messages[0], rest);
      assert s[..|messages[0]|] == messages[0] && s[|messages[0]| + 1..] == rest;
      MessagesComeBack(messages[1..], tail);
    }
  }

  lemma {:induction false} MessageInFront(m: string, rest: string)
    requires NUL !in m
    ensures var s := m + [NUL] + rest; Messages(s) == [m] + Messages(rest) && Tail(s) == Tail(rest)
  {
    hide Find;
    var s := m + [NUL] + rest;
    NulAfter(m, rest);
    assert s[..|m|] == m && s[|m| + 1..] == rest;
  }

  lemma NoMessage(s: string)
    requires NUL !in s
    ensures Messages(s) == [] && Tail(s) == s
  {}

  // What arrives later changes nothing about the messages that are complete.
  lemma {:induction false} CutAnywhere(a: string, b: string)
    ensures Messages(a + b) == Messages(a) + Messages(Tail(a) + b)
    ensures Tail(a + b) == Tail(Tail(a) + b)
    decreases |a|
  {
    hide Messages, Tail;
    var i := Find(a, NUL);
    if i < |a| {
      var m, rest := a[..i], a[i + 1..];
      assert a == m + [NUL] + rest && a + b == m + [NUL] + (rest + b);
      MessageInFront(m, rest);
      MessageInFront(m, rest + b);
      CutAnywhere(rest, b);
    } else {
      NoMessage(a);
    }
  }

  // The messages up to the first one whose handler raises an exception.
  function UpTo(messages: seq<string>, raises: string -> bool): (n: nat)
    ensures n <= |messages| && (n < |messages| ==> raises(messages[n])) && forall j :: 0 <= j < n ==>
      !raises(messages[j])
  {
    if messages == [] || raises(messages[0]) then 0 else 1 + UpTo(messages[1..], raises)
  }

  function After(s: string, n: nat): string
    requires n <= |Messages(s)|
    decreases n
  {
    if n == 0 then s else After(s[Find(s, NUL) + 1..], n - 1)
  }

  lemma {:induction false} AfterAll(s: string)
    ensures After(s, |Messages(s)|) == Tail(s)
    decreases |s|
  {
    var i := Find(s, NUL);
    if i < |s| {
      AfterAll(s[i + 1..]);
    }
  }

  class FifoReader {
    var fifobuffer: string
    ghost var dispatched: seq<string>

    constructor ()
      ensures fifobuffer == "" && dispatched == []
    {
      fifobuffer, dispatched := "", [];
    }

    // `readfifo`. A message is dispatched to the logger by its command; `raises` says for which
    // messages that ends in an exception. Then the message stays at the front of the buffer.
    method ReadFifo(data: string, raises: string -> bool) returns (ok: bool)
      modifies this
      ensures var s := old(fifobuffer) + data; var n := UpTo(Messages(s), raises);
        && dispatched == old(dispatched) + Messages(s)[..n]
        && fifobuffer == After(s, n)
        && (ok <==> n == |Messages(s)|)
    {
      fifobuffer := fifobuffer + data;
      ghost var s := fifobuffer;
      ghost var n: nat := 0;
      ReadingStarts(s, dispatched, raises);
      while fifobuffer != ""
        invariant Reading(s, n, fifobuffer, old(dispatched), dispatched, raises)
        decreases |fifobuffer|
      {
        hide Reading;
        var i := Find(fifobuffer, NUL);
        if i == |fifobuffer| {
          break;
        }
        var message, nextmsg := fifobuffer[..i], fifobuffer[i + 1..];
        if raises(message) {
          ReadingStops(s, n, fifobuffer, old(dispatched), dispatched, raises);
          return false;
        }
        ReadingGoesOn(s, n, fifobuffer, old(dispatched), dispatched, raises);
        dispatched := dispatched + [message];
        fifobuffer := nextmsg;
        n := n + 1;
      }
      ReadingEnds(s, n, fifobuffer, old(dispatched), dispatched, raises);
      return true;
    }
  }

  // The first `n` messages of `s` have been dispatched; the rest is in the buffer.
  ghost predicate Reading(s: string, n: nat, buffer: string, before: seq<string>, dispatched: seq<string>,
                          raises: string -> bool) {
    && n <= UpTo(Messages(s), raises) && buffer == After(s, n)
    && Messages(buffer) == Messages(s)[n..] && dispatched == before + Messages(s)[..n]
  }

  lemma {:induction false} ReadingStarts(s: string, before: seq<string>, raises: string -> bool)
    ensures Reading(s, 0, s, before, before, raises)
  {}

  lemma {:induction false} ReadingGoesOn(s: string, n: nat, buffer: string, before: seq<string>,
                                         dispatched: seq<string>, raises: string -> bool)
    requires Reading(s, n, buffer, before, dispatched, raises)
    requires Find(buffer, NUL) < |buffer| && !raises(buffer[..Find(buffer, NUL)])
    ensures Reading(s, n + 1, buffer[Find(buffer, NUL) + 1..], before, dispatched + [buffer[..Find(buffer, NUL)]],
      raises)
  {
    hide After, UpTo, Find;
    var all := Messages(s);
    FirstMessage(buffer);
    assert all[n..][0] == all[n] && all[n..][1..] == all[n + 1..];
    AfterOneMore(s, n);
    assert all[..n + 1] == all[..n] + [all[n]];
  }

  lemma {:induction false} ReadingStops(s: string, n: nat, buffer: string, before: seq<string>,
                                        dispatched: seq<string>, raises: string -> bool)
    requires Reading(s, n, buffer, before, dispatched, raises)
    requires Find(buffer, NUL) < |buffer| && raises(buffer[..Find(buffer, NUL)])
    ensures n == UpTo(Messages(s), raises) < |Messages(s)|
  {
    hide After, UpTo, Find;
    FirstMessage(buffer);
    assert Messages(s)[n..][0] == Messages(s)[n];
  }

  lemma {:induction false} ReadingEnds(s: string, n: nat, buffer: string, before: seq<string>, dispatched: seq<string>,
                                       raises: string -> bool)
    requires Reading(s, n, buffer, before, dispatched, raises) && Find(buffer, NUL) == |buffer|
    ensures n == UpTo(Messages(s), raises) == |Messages(s)|
  {
    hide After, UpTo, Find;
    FirstMessage(buffer);
  }

  lemma {:induction false} FirstMessage(s: string)
    ensures var i := Find(s, NUL); if i == |s| then Messages(s) == []
      else Messages(s) == [s[..i]] + Messages(s[i + 1..])
    ensures var i := Find(s, NUL); i < |s| ==>
      Messages(s) != [] && Messages(s)[0] == s[..i] && Messages(s)[1..] == Messages(s[i + 1..])
  {}

  lemma {:induction false} AfterOneMore(s: string, n: nat)
    requires n < |Messages(s)|
    ensures Find(After(s, n), NUL) < |After(s, n)| && After(s, n + 1) == After(s, n)[Find(After(s, n), NUL) + 1..]
    decreases n
  {
    if n > 0 {
      AfterOneMore(s[Find(s, NUL) + 1..], n - 1);
    }
  }

  function Joined(chunks: seq<string>): string {
    if chunks == [] then "" else Joined(chunks[..|chunks| - 1]) + chunks[|chunks| - 1]
  }

  // However the stream is cut into chunks, exactly its messages are dispatched, in order, and the
  // buffer holds exactly what is not terminated yet.
  method ReadAll(chunks: seq<string>, raises: string -> bool) returns (reader: FifoReader)
    requires forall m :: m in Messages(Joined(chunks)) ==> !raises(m)
    ensures fresh(reader)
    ensures reader.dispatched == Messages(Joined(chunks)) && reader.fifobuffer == Tail(Joined(chunks))
  {
    reader := new FifoReader();
    for i := 0 to |chunks|
      invariant fresh(reader)
      invariant reader.dispatched == Messages(Joined(chunks[..i])) && reader.fifobuffer == Tail(Joined(chunks[..i]))
    {
      assert chunks[..i + 1][..i] == chunks[..i];
      ghost var s := reader.fifobuffer + chunks[i];
      CutAnywhere(Joined(chunks[..i]), chunks[i]);
      NothingRaises(chunks, i + 1, raises);
      assert forall m :: m in Messages(s) ==> m in Messages(Joined(chunks[..i + 1]));
      AfterAll(s);
      var ok := reader.ReadFifo(chunks[i], raises);
      assert UpTo(Messages(s), raises) == |Messages(s)| && Messages(s)[..|Messages(s)|] == Messages(s);
    }
    assert chunks[..|chunks|] == chunks;
  }

  lemma {:induction false} NothingRaises(chunks: seq<string>, n: nat, raises: string -> bool)
    requires n <= |chunks| && forall m :: m in Messages(Joined(chunks)) ==> !raises(m)
    ensures forall m :: m in Messages(Joined(chunks[..n])) ==> !raises(m)
    decreases |chunks| - n
  {
    if n == |chunks| {
      assert chunks[..n] == chunks;
    } else {
      NothingRaises(chunks, n + 1, raises);
      assert chunks[..n + 1][..n] == chunks[..n];
      CutAnywhere(Joined(chunks[..n]), chunks[n]);
    }
  }
}
