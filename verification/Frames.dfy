/** Frames on the connection: markers, and the loops that put received pieces together. */
module Frames {
  import opened CTypes
  import opened CStrings
  import opened Util

  const START_MARKER: string := "<CEEEFACE>"
  const END_MARKER: string := "<DEADBEEF>"
  const DONE_TRANS: string := "+DONE+"

  predicate At(hay: string, needle: string, k: nat) {
    k + |needle| <= |hay| && hay[k..k + |needle|] == needle
  }

  lemma AtShifted(hay: string, needle: string)
    requires hay != ""
    ensures forall k: nat {:trigger At(hay, needle, k)} ::
              k >= 1 ==> (At(hay, needle, k) <==> At(hay[1..], needle, k - 1))
  {
    forall k: nat | k >= 1 ensures At(hay, needle, k) <==> At(hay[1..], needle, k - 1) {
      if k + |needle| <= |hay| {
        assert hay[k..k + |needle|] == hay[1..][k - 1..k - 1 + |needle|];
      }
    }
  }

  /** strstr: the first place the needle stands. */
  function StrStr(hay: string, needle: string): (r: Option<nat>)
    ensures r.Some? ==> At(hay, needle, r.value) && forall k :: 0 <= k < r.value ==> !At(hay, needle, k)
    ensures r.None? ==> forall k: nat :: !At(hay, needle, k)
  {
    if At(hay, needle, 0) then Some(0)
    else if hay == "" then None
    else
      var r := StrStr(hay[1..], needle);
      AtShifted(hay, needle);
      if r.None? then None else Some(r.value + 1)
  }

  function Frame(payload: string): string {
    START_MARKER + payload + END_MARKER
  }

  /** What a receive function returns: 1, or 0 and the payload. Wild is a search past the end of a
      full buffer that holds no terminator. */
  datatype Received = Failed | Message(payload: string) | Wild

  /** What is left in the buffer once both markers are in: the end marker is cut off, and what
      follows the start marker is moved to the front. */
  function Strip(buf: string, start: nat, end: nat): string
    requires start + 10 <= |buf| && end < |buf|
  {
    CStr(buf[end := NUL][start + 10..])
  }

  /** What the loop condition and, in the server, the test for DONE_TRANS make of the buffer. */
  function Look(buf: string, server: bool): Option<Received> {
    var start, end := StrStr(CStr(buf), START_MARKER), StrStr(CStr(buf), END_MARKER);
    if |buf| >= BIG_ENOUGH && NUL !in buf then Some(Wild)
    else if server && StrStr(CStr(buf), DONE_TRANS).Some? then Some(Failed)
    else if start.Some? && end.Some? then Some(Message(Strip(buf, start.value, end.value)))
    else None
  }

  /** One receive call, from the state in which acc is in the buffer and `used` pieces have been
      taken: its result and how many pieces it took. Each piece is what one recv delivers; an
      empty piece, or none, is a recv that returns no bytes. */
  function Receive(acc: string, pieces: seq<string>, used: nat, server: bool): (Received, nat)
    requires used <= |pieces|
    decreases |pieces| - used
  {
    if used == |pieces| || pieces[used] == "" then (Failed, used)
    else
      match Look(acc + pieces[used], server)
      case Some(r) => (r, used + 1)
      case None => Receive(acc + pieces[used], pieces, used + 1, server)
  }

  // ---------------------------------------------------------------- where markers stand in a frame

  ghost predicate Contains(s: string, t: string) {
    exists k: nat :: At(s, t, k)
  }

  lemma AtChars(hay: string, needle: string, k: nat, i: nat)
    requires At(hay, needle, k) && i < |needle|
    ensures hay[k + i] == needle[i]
  {
    assert hay[k..k + |needle|][i] == hay[k + i];
  }

  lemma FrameChars(p: string)
    ensures var f := Frame(p);
            && |f| == |p| + 20
            && (forall i :: 0 <= i < 10 ==> f[i] == START_MARKER[i] && f[10 + |p| + i] == END_MARKER[i])
            && (forall i :: 0 <= i < |p| ==> f[10 + i] == p[i])
            && f[10..10 + |p|] == p
  {
  }

  /** The end marker stands in a frame only at its end, if it does not stand in the payload. */
  lemma EndOnlyAtEnd(p: string, k: nat)
    requires At(Frame(p), END_MARKER, k)
    ensures k == 10 + |p| || (10 <= k && At(p, END_MARKER, k - 10))
  {
    var f := Frame(p);
    FrameChars(p);
    AtChars(f, END_MARKER, k, 0);
    AtChars(f, END_MARKER, k, 1);
    if 10 <= k && k + 10 <= 10 + |p| {
      assert f[k..k + 10] == p[k - 10..k];
    } else if 10 <= k < 10 + |p| {
      AtChars(f, END_MARKER, k, 10 + |p| - k);
    }
  }

  /** Nor does DONE_TRANS stand anywhere but in the payload. */
  lemma DoneOnlyInPayload(p: string, k: nat)
    requires At(Frame(p), DONE_TRANS, k)
    ensures 10 <= k && At(p, DONE_TRANS, k - 10)
  {
    var f := Frame(p);
    FrameChars(p);
    AtChars(f, DONE_TRANS, k, 0);
    AtChars(f, DONE_TRANS, k, 5);
    assert f[k] == '+' && f[k + 5] == '+';
    assert forall i :: 0 <= i < 10 ==> START_MARKER[i] != '+' && END_MARKER[i] != '+';
    assert forall i :: 10 + |p| <= i < |f| ==> f[i] == END_MARKER[i - 10 - |p|];
    assert 10 <= k && k + 5 < 10 + |p|;
    assert f[k..k + 6] == p[k - 10..k - 10 + 6];
  }

  lemma AtInPrefix(s: string, f: string, t: string, k: nat)
    requires s <= f && At(s, t, k)
    ensures At(f, t, k)
  {
    assert f[k..k + |t|] == s[k..k + |t|];
  }

  /** What the payload must not hold for the frame to come through. */
  ghost predicate Clean(p: string, server: bool) {
    NUL !in p && !Contains(p, END_MARKER) && (server ==> !Contains(p, DONE_TRANS))
  }

  lemma FrameHasNoNul(p: string, s: string)
    requires NUL !in p && s <= Frame(p)
    ensures NUL !in s && CStr(s) == s
  {
    FrameChars(p);
    var f := Frame(p);
    forall i | 0 <= i < |s| ensures s[i] != NUL {
      if i < 10 {
        assert f[i] == START_MARKER[i];
      } else if i < 10 + |p| {
        assert f[10 + (i - 10)] == p[i - 10] && p[i - 10] in p;
      } else {
        assert f[10 + |p| + (i - 10 - |p|)] == END_MARKER[i - 10 - |p|];
      }
    }
    CStrIs(s, s);
  }

  /** Before the last byte of the frame the loop goes on. */
  lemma PartGoesOn(p: string, s: string, server: bool)
    requires Clean(p, server) && s < Frame(p)
    ensures CStr(s) == s && StrStr(s, END_MARKER).None?
    ensures server ==> StrStr(s, DONE_TRANS).None?
  {
    FrameHasNoNul(p, s);
    var e, d := StrStr(s, END_MARKER), StrStr(s, DONE_TRANS);
    FrameChars(p);
    if e.Some? {
      AtInPrefix(s, Frame(p), END_MARKER, e.value);
      EndOnlyAtEnd(p, e.value);
    }
    if server && d.Some? {
      AtInPrefix(s, Frame(p), DONE_TRANS, d.value);
      DoneOnlyInPayload(p, d.value);
    }
  }

  /** With the last byte of the frame the loop stops and the payload is exact. */
  lemma WholeStops(p: string, server: bool)
    requires Clean(p, server)
    ensures var f := Frame(p);
            && CStr(f) == f
            && StrStr(f, START_MARKER) == Some(0)
            && StrStr(f, END_MARKER) == Some(10 + |p|)
            && (server ==> StrStr(f, DONE_TRANS).None?)
            && |f| == |p| + 20 && Strip(f, 0, 10 + |p|) == p
  {
    var f := Frame(p);
    FrameHasNoNul(p, f);
    FrameChars(p);
    assert f[0..10] == START_MARKER;
    assert f[10 + |p|..10 + |p| + 10] == END_MARKER;
    var e := StrStr(f, END_MARKER);
    assert At(f, END_MARKER, 10 + |p|);
    EndOnlyAtEnd(p, e.value);
    if server && StrStr(f, DONE_TRANS).Some? {
      DoneOnlyInPayload(p, StrStr(f, DONE_TRANS).value);
    }
    CStrIs(f[10 + |p| := NUL][10..], p);
  }

  /** However a frame is cut into pieces, the loop stops with the piece that brings its last
      byte, takes nothing of what comes later, and recovers the payload. */
  lemma {:induction false} FrameReceived(p: string, acc: string, pieces: seq<string>, used: nat, n: nat, server: bool)
    requires Clean(p, server) && |Frame(p)| < BIG_ENOUGH && used < n <= |pieces|
    requires forall i :: used <= i < n ==> pieces[i] != ""
    requires acc + Flatten(pieces[used..n]) == Frame(p)
    ensures Receive(acc, pieces, used, server) == (Message(p), n)
    decreases n - used
  {
    var buf, rest := acc + pieces[used], pieces[used + 1..n];
    assert pieces[used..n][1..] == rest;
    assert acc + (pieces[used] + Flatten(rest)) == buf + Flatten(rest);
    if used + 1 == n {
      assert Flatten(rest) == [];
      assert buf == Frame(p);
      WholeStops(p, server);
    } else {
      assert rest[0] != "";
      assert |Flatten(rest)| >= |rest[0]|;
      PartGoesOn(p, buf, server);
      FrameReceived(p, buf, pieces, used + 1, n, server);
    }
  }

  lemma StripStopsAtEnd(buf: string, e: nat)
    requires 10 <= e < |buf|
    ensures |Strip(buf, 0, e)| <= e - 10
  {
    StopsAtNul(buf[e := NUL][10..], e - 10);
  }

  /** Where a payload holds the end marker, the search finds that one first. */
  lemma CutShort(p: string, buf: string, k: nat, e: nat)
    requires NUL !in p && buf <= Frame(p) && At(p, END_MARKER, k) && StrStr(buf, END_MARKER) == Some(e)
    ensures 10 <= e < 10 + |p|
  {
    var f := Frame(p);
    FrameChars(p);
    AtInPrefix(buf, f, END_MARKER, e);
    EndOnlyAtEnd(p, e);
    assert f[10 + k..10 + k + 10] == p[k..k + 10];
    if buf == f {
      assert At(f, END_MARKER, 10 + k);
    }
  }

  lemma StartFirst(p: string, buf: string)
    requires buf <= Frame(p) && |buf| >= 10
    ensures StrStr(buf, START_MARKER) == Some(0)
  {
    FrameChars(p);
    assert buf[0..10] == START_MARKER;
  }

  lemma NeverWhole(p: string, buf: string, server: bool)
    requires buf <= Frame(p) && NUL !in p && !Clean(p, server)
    ensures Look(buf, server) != Some(Message(p))
  {
    FrameHasNoNul(p, buf);
    var e := StrStr(buf, END_MARKER);
    if e.Some? {
      StartFirst(p, buf);
      if Contains(p, END_MARKER) {
        var k: nat :| At(p, END_MARKER, k);
        CutShort(p, buf, k, e.value);
        StripStopsAtEnd(buf, e.value);
      } else {
        AtInPrefix(buf, Frame(p), END_MARKER, e.value);
        EndOnlyAtEnd(p, e.value);
        FrameChars(p);
        assert buf == Frame(p);
        DoneSeen(p);
      }
    }
  }

  lemma DoneSeen(p: string)
    requires Contains(p, DONE_TRANS)
    ensures StrStr(Frame(p), DONE_TRANS).Some?
  {
    var k: nat :| At(p, DONE_TRANS, k);
    FrameChars(p);
    assert Frame(p)[10 + k..10 + k + 6] == p[k..k + 6];
    assert At(Frame(p), DONE_TRANS, 10 + k);
  }

  lemma NoNulInMessages(buf: string, server: bool)
    ensures var r := Look(buf, server); r.Some? && r.value.Message? ==> NUL !in r.value.payload
  {
  }

  /** The loop never returns the payload of a frame that holds what it must not hold, or fills the
      buffer. */
  lemma {:induction false} NotRecovered(p: string, acc: string, pieces: seq<string>, used: nat, server: bool)
    requires used <= |pieces| && acc + Flatten(pieces[used..]) <= Frame(p)
    requires !Clean(p, server) || (acc + Flatten(pieces[used..]) == Frame(p) && |Frame(p)| >= BIG_ENOUGH)
    ensures Receive(acc, pieces, used, server).0 != Message(p)
    decreases |pieces| - used
  {
    if used < |pieces| && pieces[used] != "" {
      var buf, rest := acc + pieces[used], Flatten(pieces[used + 1..]);
      assert pieces[used..][1..] == pieces[used + 1..];
      assert acc + (pieces[used] + rest) == buf + rest;
      LookNotWhole(p, buf, server);
      NotRecovered(p, buf, pieces, used + 1, server);
    }
  }

  lemma LookNotWhole(p: string, buf: string, server: bool)
    requires buf <= Frame(p) && (!Clean(p, server) || |Frame(p)| >= BIG_ENOUGH)
    ensures Look(buf, server) != Some(Message(p))
  {
    NoNulInMessages(buf, server);
    if NUL !in p {
      FrameHasNoNul(p, buf);
      if !Clean(p, server) {
        NeverWhole(p, buf, server);
      } else if buf < Frame(p) {
        PartGoesOn(p, buf, server);
      }
    }
  }

  /** However a frame is cut, its payload comes through exactly when it holds no NUL, no end marker
      and, to the server, no DONE_TRANS, and the frame leaves room for a terminator. */
  lemma PayloadRecoveredIff(p: string, pieces: seq<string>, server: bool)
    requires Flatten(pieces) == Frame(p) && "" !in pieces
    ensures Receive("", pieces, 0, server).0 == Message(p) <==> Clean(p, server) && |Frame(p)| < BIG_ENOUGH
  {
    FrameChars(p);
    assert pieces[0..] == pieces && pieces[0..|pieces|] == pieces && "" + Flatten(pieces) == Frame(p);
    assert |Flatten(pieces)| > 0;
    if Clean(p, server) && |Frame(p)| < BIG_ENOUGH {
      FrameReceived(p, "", pieces, 0, |pieces|, server);
    } else {
      NotRecovered(p, "", pieces, 0, server);
    }
  }

  lemma NoMarkerWithoutBracket(s: string, t: string)
    requires '<' !in s && t != "" && t[0] == '<'
    ensures StrStr(s, t).None?
  {
    assert forall i :: 0 <= i < |s| ==> s[i] != '<';
    if StrStr(s, t).Some? {
      AtChars(s, t, StrStr(s, t).value, 0);
    }
  }

  /** Text without a bracket, such as DONE_TRANS, is never taken for a message. */
  lemma {:induction false} NoMessageWithoutBracket(acc: string, pieces: seq<string>, used: nat, server: bool)
    requires '<' !in acc && forall i :: 0 <= i < |pieces| ==> '<' !in pieces[i]
    requires used <= |pieces|
    ensures !Receive(acc, pieces, used, server).0.Message?
    ensures |acc| + |Flatten(pieces[used..])| < BIG_ENOUGH ==> Receive(acc, pieces, used, server).0 == Failed
    decreases |pieces| - used
  {
    if used < |pieces| && pieces[used] != "" {
      var buf := acc + pieces[used];
      assert '<' !in CStr(buf);
      HeadLength(pieces, used);
      NoMarkerWithoutBracket(CStr(buf), START_MARKER);
      NoMessageWithoutBracket(buf, pieces, used + 1, server);
    }
  }

  // ---------------------------------------------------------------- what any text makes of the loops

  /** The needle stands at k, and nowhere before. */
  ghost predicate First(t: string, needle: string, k: nat) {
    At(t, needle, k) && forall i :: 0 <= i < k ==> !At(t, needle, i)
  }

  lemma FirstFound(t: string, needle: string, k: nat)
    requires First(t, needle, k)
    ensures StrStr(t, needle) == Some(k)
  {
  }

  /** Text without a terminator that fills the buffer is searched past its end; and the server gives
      up on the text that ends a transfer. */
  lemma LookGivesUp(t: string, server: bool)
    requires NUL !in t
    ensures |t| >= 1024 ==> Look(t, server) == Some(Wild)
    ensures |t| < 1024 && server && Contains(t, "+DONE+") ==> Look(t, server) == Some(Failed)
  {
    CStrIs(t, t);
  }

  /** Otherwise the loop goes on while one of the markers is missing. */
  lemma LookGoesOn(t: string, server: bool)
    requires NUL !in t && |t| < 1024 && !(server && Contains(t, "+DONE+"))
    requires !Contains(t, "<CEEEFACE>") || !Contains(t, "<DEADBEEF>")
    ensures Look(t, server) == None
  {
    CStrIs(t, t);
  }

  /** With both in, the message is what stands between the first of each or, where the end marker
      comes first, everything after the start marker. */
  lemma LookTakes(t: string, server: bool, s: nat, e: nat)
    requires NUL !in t && |t| < 1024 && !(server && Contains(t, "+DONE+"))
    requires First(t, "<CEEEFACE>", s) && First(t, "<DEADBEEF>", e)
    ensures Look(t, server) == Some(Message(if s + 10 <= e then t[s + 10..e] else t[s + 10..]))
  {
    CStrIs(t, t);
    FirstFound(t, "<CEEEFACE>", s);
    FirstFound(t, "<DEADBEEF>", e);
    Between(t, s, e);
  }

  lemma CutAtNul(a: string, b: string)
    requires NUL !in a
    ensures CStr(a + [NUL] + b) == a
  {
    CStrIs(a + [NUL] + b, a);
  }

  /** What comes after a NUL is not seen. */
  lemma LookStopsAtNul(a: string, b: string, server: bool)
    requires NUL !in a && |a| < 1024
    ensures Look(a + [NUL] + b, server) == Look(a, server)
  {
    var t := a + [NUL] + b;
    CutAtNul(a, b);
    CStrIs(a, a);
    var s, e := StrStr(a, START_MARKER), StrStr(a, END_MARKER);
    if s.Some? && e.Some? {
      SameStrip(a, b, s.value, e.value);
    }
  }

  lemma SameStrip(a: string, b: string, s: nat, e: nat)
    requires NUL !in a && s + 10 <= |a| && e < |a|
    ensures Strip(a + [NUL] + b, s, e) == Strip(a, s, e)
  {
    var u := a[e := NUL][s + 10..];
    assert (a + [NUL] + b)[e := NUL][s + 10..] == u + [NUL] + b;
    CutOnce(u, b);
  }

  lemma {:induction false} CutOnce(u: string, b: string)
    ensures CStr(u + [NUL] + b) == CStr(u)
  {
    if u == "" {
      assert (u + [NUL] + b)[0] == NUL;
    } else {
      assert (u + [NUL] + b)[1..] == u[1..] + [NUL] + b && (u + [NUL] + b)[0] == u[0];
      CutOnce(u[1..], b);
    }
  }

  lemma Between(t: string, s: nat, e: nat)
    requires NUL !in t && s + 10 <= |t| && e < |t|
    ensures Strip(t, s, e) == if s + 10 <= e then t[s + 10..e] else t[s + 10..]
  {
    var u := t[e := NUL][s + 10..];
    if s + 10 <= e {
      assert u[e - s - 10] == NUL;
      CStrIs(u, t[s + 10..e]);
    } else {
      assert u == t[s + 10..];
      CStrIs(u, u);
    }
  }

  lemma OnePieceMore(acc: string, pieces: seq<string>, used: nat, k: nat)
    requires used < k <= |pieces|
    ensures acc + Flatten(pieces[used..k]) == acc + pieces[used] + Flatten(pieces[used + 1..k])
  {
    assert pieces[used..k][1..] == pieces[used + 1..k];
  }

  /** What has arrived after the pieces up to k. */
  function Arrived(acc: string, pieces: seq<string>, used: nat, k: nat): string
    requires used <= k <= |pieces|
  {
    acc + Flatten(pieces[used..k])
  }

  /** A receive call ends with r after n pieces: with the first piece after which the text so far is
      decisive, with what that text makes of it; or, if there is none before a recv brings nothing,
      in failure. */
  ghost predicate EndsWith(acc: string, pieces: seq<string>, used: nat, server: bool, r: Received, n: nat)
    requires used <= |pieces|
  {
    && used <= n <= |pieces|
    && (forall i :: used <= i < n ==> pieces[i] != "")
    && (forall k :: used < k < n ==> Look(Arrived(acc, pieces, used, k), server) == None)
    && (if used < n && Look(Arrived(acc, pieces, used, n), server).Some?
        then Some(r) == Look(Arrived(acc, pieces, used, n), server)
        else r == Failed && (n == |pieces| || pieces[n] == ""))
  }

  lemma EndsLater(acc: string, pieces: seq<string>, used: nat, server: bool, r: Received, n: nat)
    requires used < |pieces| && pieces[used] != "" && Look(acc + pieces[used], server) == None
    requires EndsWith(acc + pieces[used], pieces, used + 1, server, r, n)
    ensures EndsWith(acc, pieces, used, server, r, n)
  {
    forall k | used < k <= |pieces|
      ensures Arrived(acc, pieces, used, k) == Arrived(acc + pieces[used], pieces, used + 1, k)
    {
      OnePieceMore(acc, pieces, used, k);
    }
    ArrivedNone(acc + pieces[used], pieces, used + 1);
  }

  lemma ArrivedNone(acc: string, pieces: seq<string>, used: nat)
    requires used <= |pieces|
    ensures Arrived(acc, pieces, used, used) == acc
  {
  }

  /** The whole of a receive call, for any pieces. */
  lemma {:induction false} ReceiveIs(acc: string, pieces: seq<string>, used: nat, server: bool)
    requires used <= |pieces|
    ensures var (r, n) := Receive(acc, pieces, used, server); EndsWith(acc, pieces, used, server, r, n)
    decreases |pieces| - used
  {
    if used < |pieces| && pieces[used] != "" {
      var buf := acc + pieces[used];
      OnePieceMore(acc, pieces, used, used + 1);
      ArrivedNone(buf, pieces, used + 1);
      if Look(buf, server).None? {
        ReceiveIs(buf, pieces, used + 1, server);
        var (r, n) := Receive(buf, pieces, used + 1, server);
        EndsLater(acc, pieces, used, server, r, n);
      }
    }
  }

  /** A message is returned only when both markers have arrived. */
  lemma MessageNeedsBothMarkers(pieces: seq<string>, server: bool)
    ensures var (r, n) := Receive("", pieces, 0, server);
            r.Message? ==> 0 < n <= |pieces|
                           && Contains(CStr(Flatten(pieces[..n])), "<CEEEFACE>")
                           && Contains(CStr(Flatten(pieces[..n])), "<DEADBEEF>")
  {
    ReceiveIs("", pieces, 0, server);
    var (r, n) := Receive("", pieces, 0, server);
    assert pieces[0..n] == pieces[..n];
    assert Arrived("", pieces, 0, n) == Flatten(pieces[..n]);
  }

  lemma {:induction false} FlattenPrefix(pieces: seq<string>, k: nat, n: nat)
    requires k <= n <= |pieces|
    ensures Flatten(pieces[..k]) <= Flatten(pieces[..n])
    decreases k
  {
    if k > 0 {
      FlattenPrefix(pieces[1..], k - 1, n - 1);
      assert pieces[..k][1..] == pieces[1..][..k - 1] && pieces[..n][1..] == pieces[1..][..n - 1];
    }
  }

  /** A connection that drops inside a frame is a failure, in both loops, however much of the frame
      has arrived. */
  lemma DroppedInsideFrame(p: string, pieces: seq<string>, n: nat, server: bool)
    requires Clean(p, server) && |Frame(p)| < 1024 && n <= |pieces| && "" !in pieces[..n]
    requires Flatten(pieces[..n]) < Frame(p) && (n == |pieces| || pieces[n] == "")
    ensures Receive("", pieces, 0, server) == (Failed, n)
  {
    ReceiveIs("", pieces, 0, server);
    assert forall i :: 0 <= i < n ==> pieces[..n][i] == pieces[i] != "";
    var (r, u) := Receive("", pieces, 0, server);
    assert u <= n;
    PartUndecided(p, pieces, u, n, server);
  }

  lemma PartUndecided(p: string, pieces: seq<string>, u: nat, n: nat, server: bool)
    requires Clean(p, server) && |Frame(p)| < 1024 && u <= n <= |pieces| && Flatten(pieces[..n]) < Frame(p)
    ensures Look(Arrived("", pieces, 0, u), server) == None
  {
    assert pieces[0..u] == pieces[..u] && Arrived("", pieces, 0, u) == Flatten(pieces[..u]);
    FlattenPrefix(pieces, u, n);
    PartGoesOn(p, Flatten(pieces[..u]), server);
  }

  // ---------------------------------------------------------------- the receive loops in C

  /** recv: the bytes of one piece, stored after those received before. */
  method Store(buffer: array<char>, ghost acc: string, len: nat, piece: string)
    requires len == |acc| && len + |piece| <= buffer.Length && Holds(buffer[..], acc)
    modifies buffer
    ensures Holds(buffer[..], acc + piece)
  {
    for k := 0 to |piece|
      invariant forall j :: 0 <= j < len + k ==> buffer[j] == (acc + piece)[j]
      invariant forall j :: len + k <= j < buffer.Length ==> buffer[j] == NUL
    {
      buffer[len + k] := piece[k];
    }
  }

  /** strcpy(buffer, buffer + from), byte by byte up to and including the terminator. */
  method MoveToFront(buffer: array<char>, from: nat, ghost s: string)
    requires 0 < from && from + |s| < buffer.Length && NUL !in s
    requires buffer[from..from + |s|] == s && buffer[from + |s|] == NUL
    modifies buffer
    ensures CStr(buffer[..]) == s
  {
    ghost var was := buffer[..];
    assert forall i :: 0 <= i < |s| ==> was[from + i] == s[i] != NUL;
    var k := 0;
    while buffer[from + k] != NUL
      invariant k <= |s|
      invariant forall j :: 0 <= j < k ==> buffer[j] == s[j]
      invariant forall j :: k <= j < buffer.Length ==> buffer[j] == was[j]
      decreases |s| - k
    {
      buffer[k] := buffer[from + k];
      k := k + 1;
    }
    buffer[k] := NUL;
    assert buffer[..k] == s;
    CStrIs(buffer[..], s);
  }

  /** client_socket_rcv, and server_socket_rcv when server is set. Each recv is given the room that
      is left in the buffer, and delivers no more than that. */
  method ReceiveLoop(pieces: seq<string>, server: bool) returns (r: Received, used: nat)
    requires |Flatten(pieces)| <= BIG_ENOUGH
    ensures (r, used) == Receive("", pieces, 0, server)
  {
    var buffer := new char[BIG_ENOUGH](_ => NUL);
    var len := 0;
    ghost var acc := "";
    used := 0;
    while true
      invariant used <= |pieces| && len == |acc|
      invariant len + |Flatten(pieces[used..])| <= buffer.Length == BIG_ENOUGH
      invariant Holds(buffer[..], acc)
      invariant Receive("", pieces, 0, server) == Receive(acc, pieces, used, server)
      decreases |pieces| - used
    {
      if used == |pieces| || pieces[used] == "" {
        return Failed, used;
      }
      HeadLength(pieces, used);
      Store(buffer, acc, len, pieces[used]);
      acc := acc + pieces[used];
      len := len + |pieces[used]|;
      used := used + 1;
      var seen := LookAt(buffer, acc, server);
      if seen.Some? {
        return seen.value, used;
      }
    }
  }

  lemma HeadLength(pieces: seq<string>, used: nat)
    requires used < |pieces|
    ensures |Flatten(pieces[used..])| == |pieces[used]| + |Flatten(pieces[used + 1..])|
  {
    assert pieces[used..][1..] == pieces[used + 1..];
  }

  /** The tests made after each recv, and the statements after the loop. */
  method LookAt(buffer: array<char>, ghost acc: string, server: bool) returns (seen: Option<Received>)
    requires Holds(buffer[..], acc) && buffer.Length == BIG_ENOUGH
    modifies buffer
    ensures seen == Look(acc, server)
    ensures seen.None? ==> buffer[..] == old(buffer[..])
  {
    BufferHolds(buffer[..], acc);
    Terminated(buffer[..], acc);
    if |CStr(buffer[..])| == buffer.Length {
      return Some(Wild);
    }
    if server && StrStr(CStr(buffer[..]), DONE_TRANS).Some? {
      return Some(Failed);
    }
    var start := StrStr(CStr(buffer[..]), START_MARKER);
    var end := StrStr(CStr(buffer[..]), END_MARKER);
    if start.Some? && end.Some? {
      var payload := Extract(buffer, acc, start.value, end.value);
      return Some(Message(payload));
    }
    return None;
  }

  /** A buffer holds a terminator unless it is full of other characters. */
  lemma Terminated(buf: seq<char>, acc: string)
    requires Holds(buf, acc)
    ensures |CStr(acc)| < |buf| <==> |acc| < |buf| || NUL in acc
  {
    assert NUL in acc ==> CStr(acc) != acc;
  }

  lemma StopsAtNul(t: string, i: nat)
    requires i < |t| && t[i] == NUL
    ensures |CStr(t)| <= i
  {
    forall k | 0 <= k < |CStr(t)| ensures t[k] != NUL {
      assert CStr(t)[k] in CStr(t);
    }
  }

  lemma StripEnds(acc: string, start: nat, end: nat, size: nat)
    requires start + 10 <= |CStr(acc)| < size && end < |CStr(acc)| && |acc| <= size
    ensures start + 10 + |Strip(acc, start, end)| < size
  {
    var n := |CStr(acc)|;
    var t := acc[end := NUL][start + 10..];
    if n < |acc| {
      StopsAtNul(t, n - start - 10);
    }
  }

  /** What follows the start marker once the end marker is cut off. */
  lemma AfterMarker(was: seq<char>, buf: seq<char>, acc: string, start: nat, end: nat)
    requires Holds(was, acc) && |CStr(acc)| < |was| && start + 10 <= |CStr(acc)| && end < |CStr(acc)|
    requires buf == was[end := NUL]
    ensures var s := Strip(acc, start, end);
            && start + 10 + |s| < |buf| && NUL !in s
            && buf[start + 10..start + 10 + |s|] == s && buf[start + 10 + |s|] == NUL
  {
    StripEnds(acc, start, end, |was|);
    var cut := acc[end := NUL];
    var t := cut[start + 10..];
    var s := CStr(t);
    assert forall i :: 0 <= i < |cut| ==> buf[i] == cut[i];
    assert forall i :: 0 <= i < |t| ==> buf[start + 10 + i] == t[i];
    assert forall i :: 0 <= i < |s| ==> s[i] == t[i];
  }

  /** The statements after the loop. */
  method Extract(buffer: array<char>, ghost acc: string, start: nat, end: nat) returns (payload: string)
    requires Holds(buffer[..], acc) && |CStr(acc)| < buffer.Length
    requires start + 10 <= |CStr(acc)| && end < |CStr(acc)|
    modifies buffer
    ensures payload == Strip(acc, start, end)
  {
    ghost var was := buffer[..];
    buffer[end] := NUL;
    AfterMarker(was, buffer[..], acc, start, end);
    ghost var s := Strip(acc, start, end);
    assert buffer[start + 10..start + 10 + |s|] == buffer[..][start + 10..start + 10 + |s|];
    MoveToFront(buffer, start + 10, s);
    payload := CStr(buffer[..]);
  }
}
