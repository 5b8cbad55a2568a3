/** What a connection's writers put on the wire: a write that times out or fails may have sent the
    beginning of its message, and the next one, a retry included, sends a whole message behind it. */
module MessageWire {
  import opened LineFraming
  import opened WriteHalf

  // ---------- The machine ----------

  /** What one write sent, and whether it was the whole message. */
  datatype Piece = Piece(writer: nat, text: string, whole: bool)

  datatype Wire = Wire(conn: Connection, messages: seq<string>, pieces: seq<Piece>)

  const FRESH := Wire(WriteHalf.START, [], [])

  /** An action on the connection; `message` is what a new writer is given, `sent` how many characters
      a write had put on the wire when it ended. */
  datatype Event = Event(action: Action, message: string, sent: nat)

  /** A message of the bridge is one line with its newline. */
  predicate IsLine(m: string) {
    m != "" && m[|m| - 1] == '\n' && '\n' !in m[..|m| - 1]
  }

  predicate EndsWrite(s: Connection, a: Action) {
    a.Write? && a.w < |s.writers| && s.writers[a.w].phase.Writing?
  }

  /** `write_all` returns as soon as everything is sent, so a write that ends otherwise has sent less. */
  predicate CanHappen(s: Wire, e: Event) {
    && Enabled(s.conn, e.action)
    && (e.action.NewWriter? ==> IsLine(e.message))
    && (EndsWrite(s.conn, e.action) ==>
          && e.action.w < |s.messages|
          && if e.action.o == Success then e.sent == |s.messages[e.action.w]| else e.sent < |s.messages[e.action.w]|)
  }

  function Happened(s: Wire, e: Event): Wire
    requires CanHappen(s, e)
  {
    Wire(Step(s.conn, e.action),
         if e.action.NewWriter? then s.messages + [e.message] else s.messages,
         if EndsWrite(s.conn, e.action)
         then s.pieces + [Piece(e.action.w, s.messages[e.action.w][..e.sent], e.action.o == Success)]
         else s.pieces)
  }

  ghost predicate IsWireRun(es: seq<Event>, s: seq<Wire>) {
    && |s| == |es| + 1
    && s[0] == FRESH
    && forall m :: 0 <= m < |es| ==> IsWireStep(es, s, m)
  }

  ghost predicate IsWireStep(es: seq<Event>, s: seq<Wire>, m: nat)
    requires m < |es| < |s|
  {
    CanHappen(s[m], es[m]) && s[m + 1] == Happened(s[m], es[m])
  }

  // ---------- What the other side reads ----------

  function Text(pieces: seq<Piece>): string {
    if pieces == [] then "" else Text(pieces[..|pieces| - 1]) + pieces[|pieces| - 1].text
  }

  /** The lines that have come in full. */
  function Complete(x: string): seq<string>
    decreases |x|
  {
    var p := Newline(x);
    if p == |x| then [] else [x[..p]] + Complete(x[p + 1..])
  }

  /** The messages whose writes went through, without their newlines. */
  function Delivered(pieces: seq<Piece>): seq<string> {
    if pieces == [] then []
    else
      var last := pieces[|pieces| - 1];
      Delivered(pieces[..|pieces| - 1]) + if last.whole && last.text != "" then [last.text[..|last.text| - 1]] else []
  }

  /** A whole message was sent some time after the beginning of one that was broken off. */
  ghost predicate Torn(pieces: seq<Piece>) {
    exists i, j :: 0 <= i < j < |pieces| && BrokenOff(pieces[i]) && pieces[j].whole
  }

  predicate BrokenOff(p: Piece) {
    !p.whole && p.text != ""
  }

  predicate PieceFits(p: Piece) {
    if p.whole then IsLine(p.text) else '\n' !in p.text
  }

  // ---------- Lines out of pieces ----------

  lemma CompleteStep(x: string, p: nat)
    requires p == Newline(x) < |x|
    ensures Complete(x) == [x[..p]] + Complete(x[p + 1..]) && Rest(x) == Rest(x[p + 1..])
  {
    hide Newline, Rest, Lines;
    LinesStep(x, p);
  }

  lemma NothingComplete(x: string)
    requires Newline(x) == |x|
    ensures Complete(x) == [] && Rest(x) == x
  {
    hide Newline, Rest, Lines;
    NoLines(x);
  }

  lemma {:induction false} CompleteConcat(x: string, y: string)
    ensures Complete(x + y) == Complete(x) + Complete(Rest(x) + y) && Rest(x + y) == Rest(Rest(x) + y)
    decreases |x|
  {
    hide Newline, Complete, Rest;
    var p := Newline(x);
    NewlineConcat(x, y);
    if p < |x| {
      var x' := x[p + 1..];
      assert (x + y)[..p] == x[..p] && (x + y)[p + 1..] == x' + y;
      CompleteStep(x, p);
      CompleteStep(x + y, p);
      CompleteConcat(x', y);
      Regroup([x[..p]], Complete(x'), Complete(Rest(x') + y));
    } else {
      NothingComplete(x);
    }
  }

  lemma {:induction false} NewlineAt(s: string, p: nat)
    requires p <= |s| && '\n' !in s[..p] && (p < |s| ==> s[p] == '\n')
    ensures Newline(s) == p
  {
    if p > 0 {
      assert s[0] in s[..p];
      assert s[1..][..p - 1] == s[1..p] && forall c :: c in s[1..p] ==> c in s[..p];
      NewlineAt(s[1..], p - 1);
    }
  }

  /** Behind a rest without a newline, a broken piece completes nothing and a line completes one. */
  lemma PieceCompletes(r: string, t: Piece)
    requires '\n' !in r && PieceFits(t)
    ensures !t.whole ==> Complete(r + t.text) == [] && Rest(r + t.text) == r + t.text
    ensures t.whole ==> Complete(r + t.text) == [r + t.text[..|t.text| - 1]] && Rest(r + t.text) == ""
  {
    var x := r + t.text;
    if t.whole {
      var p := |x| - 1;
      assert x[..p] == r + t.text[..|t.text| - 1] && x[p + 1..] == "";
      NewlineAt(x, p);
      hide Newline;
      CompleteStep(x, p);
      NothingComplete("") by {
        NewlineAt("", 0);
      }
    } else {
      assert x[..|x|] == x;
      NewlineAt(x, |x|);
      hide Newline;
      NothingComplete(x);
    }
  }

  lemma PieceAdds(prev: seq<Piece>, last: Piece)
    requires PieceFits(last)
    ensures var x, y := Text(prev), Text(prev + [last]);
      if last.whole then Complete(y) == Complete(x) + [Rest(x) + last.text[..|last.text| - 1]] && Rest(y) == ""
      else Complete(y) == Complete(x) && Rest(y) == Rest(x) + last.text
  {
    hide Complete, Rest, Newline;
    assert (prev + [last])[..|prev|] == prev;
    var x := Text(prev);
    RestHasNoNewline(x);
    CompleteConcat(x, last.text);
    PieceCompletes(Rest(x), last);
  }

  ghost predicate Stray(pieces: seq<Piece>) {
    exists i :: 0 <= i < |pieces| && BrokenOff(pieces[i])
  }

  lemma TornPush(prev: seq<Piece>, last: Piece)
    ensures Torn(prev + [last]) <==> Torn(prev) || (last.whole && Stray(prev))
    ensures Stray(prev + [last]) <==> Stray(prev) || BrokenOff(last)
  {
    hide BrokenOff;
    var s := prev + [last];
    if Torn(prev) {
      var i, j :| 0 <= i < j < |prev| && BrokenOff(prev[i]) && prev[j].whole;
      assert BrokenOff(s[i]) && s[j].whole;
    }
    if Stray(prev) {
      var i :| 0 <= i < |prev| && BrokenOff(prev[i]);
      assert BrokenOff(s[i]) && s[|prev|] == last;
    }
    assert s[|prev|] == last;
  }

  lemma DeliveredPush(prev: seq<Piece>, last: Piece)
    ensures Delivered(prev + [last])
            == Delivered(prev) + if last.whole && last.text != "" then [last.text[..|last.text| - 1]] else []
  {
    assert (prev + [last])[..|prev|] == prev;
  }

  ghost predicate AllFit(pieces: seq<Piece>) {
    forall i :: 0 <= i < |pieces| ==> PieceFits(pieces[i])
  }

  /** Nothing is left over unless some message was broken off. */
  lemma {:induction false} LeftOver(pieces: seq<Piece>)
    requires AllFit(pieces) && !Torn(pieces)
    ensures Rest(Text(pieces)) == "" <==> !Stray(pieces)
  {
    if pieces == [] {
      NoPieces();
    } else {
      var n := |pieces| - 1;
      var prev, last := pieces[..n], pieces[n];
      assert pieces == prev + [last] && PieceFits(last);
      hide Complete, Rest, Text, Torn, Stray, PieceFits;
      TornPush(prev, last);
      LeftOver(prev);
      PieceAdds(prev, last);
    }
  }

  lemma NoPieces()
    ensures Complete(Text([])) == [] == Delivered([]) && Rest(Text([])) == ""
  {
  }

  /** The lines that come in full are the delivered messages exactly if none of them was sent after
      the beginning of a message that was broken off. */
  lemma {:induction false} LinesIff(pieces: seq<Piece>)
    requires AllFit(pieces)
    ensures Complete(Text(pieces)) == Delivered(pieces) <==> !Torn(pieces)
  {
    if pieces == [] {
      NoPieces();
    } else {
      var n := |pieces| - 1;
      var prev, last := pieces[..n], pieces[n];
      assert pieces == prev + [last] && PieceFits(last);
      assert last.whole ==> last.text != "";
      hide Complete, Rest, Text, Torn, Stray, PieceFits, Delivered;
      TornPush(prev, last);
      LinesIff(prev);
      PieceAdds(prev, last);
      DeliveredPush(prev, last);
      if !Torn(prev) {
        LeftOver(prev);
      }
      if last.whole {
        var body := last.text[..|last.text| - 1];
        SameEnds(Complete(Text(prev)), Rest(Text(prev)), Delivered(prev), body);
      }
    }
  }

  lemma SameEnds(a: seq<string>, r: string, b: seq<string>, body: string)
    ensures a + [r + body] == b + [body] <==> a == b && r == ""
  {
    var s, t := a + [r + body], b + [body];
    if r == "" {
      assert r + body == body;
    }
    if s == t {
      assert s[|a|] == t[|b|] && |r + body| == |body|;
      assert a == s[..|a|] && b == t[..|b|];
    }
  }

  // ---------- Every run ----------

  ghost predicate WireFits(s: Wire) {
    && |s.messages| == |s.conn.writers| && (forall i :: 0 <= i < |s.messages| ==> IsLine(s.messages[i]))
    && AllFit(s.pieces)
  }

  lemma WritersFollow(s: Connection, a: Action)
    requires Enabled(s, a)
    ensures |Step(s, a).writers| == |s.writers| + if a.NewWriter? then 1 else 0
  {
    hide Moved;
  }

  lemma PrefixOfLine(m: string, sent: nat, whole: bool, w: nat)
    requires IsLine(m) && (if whole then sent == |m| else sent < |m|)
    ensures PieceFits(Piece(w, m[..sent], whole))
  {
    if whole {
      assert m[..sent] == m;
    } else {
      assert m[..sent] == m[..|m| - 1][..sent];
      assert forall c :: c in m[..sent] ==> c in m[..|m| - 1];
    }
  }

  lemma FitsStep(s: Wire, e: Event)
    requires WireFits(s) && CanHappen(s, e)
    ensures WireFits(Happened(s, e))
  {
    WritersFollow(s.conn, e.action);
    if EndsWrite(s.conn, e.action) {
      PrefixOfLine(s.messages[e.action.w], e.sent, e.action.o == Success, e.action.w);
    }
    hide Step, IsLine, PieceFits;
  }

  lemma {:induction false} WireRunFits(es: seq<Event>, s: seq<Wire>, n: nat)
    requires IsWireRun(es, s) && n < |s|
    ensures WireFits(s[n])
  {
    if n > 0 {
      hide WireFits, Happened, CanHappen;
      WireRunFits(es, s, n - 1);
      assert IsWireStep(es, s, n - 1);
      FitsStep(s[n - 1], es[n - 1]);
    }
  }

  /** In every state of every interleaving, the lines the other side has in full are exactly the
      messages whose writes went through, in order, if and only if none of these was sent after the
      beginning of a message that a timeout or an error broke off. */
  lemma WholeMessagesIff(es: seq<Event>, s: seq<Wire>, n: nat)
    requires IsWireRun(es, s) && n < |s|
    ensures Complete(Text(s[n].pieces)) == Delivered(s[n].pieces) <==> !Torn(s[n].pieces)
  {
    WireRunFits(es, s, n);
    hide IsWireRun, Complete, Text, Delivered, Torn, AllFit;
    LinesIff(s[n].pieces);
  }

  // ---------- It happens ----------

  ghost predicate WireReached(s: Wire) {
    exists es: seq<Event>, states: seq<Wire> :: IsWireRun(es, states) && states[|es|] == s
  }

  lemma ReachWire(s: Wire, e: Event, s': Wire)
    requires WireReached(s) && CanHappen(s, e) && s' == Happened(s, e)
    ensures WireReached(s')
  {
    hide Happened, CanHappen;
    var es: seq<Event>, states: seq<Wire> :| IsWireRun(es, states) && states[|es|] == s;
    var es', states' := es + [e], states + [s'];
    forall m | 0 <= m < |es'| ensures IsWireStep(es', states', m) {
      if m < |es| {
        assert IsWireStep(es, states, m);
      }
    }
    assert IsWireRun(es', states') && states'[|es'|] == s';
  }

  /** A connection with one writer in the given phase. */
  function Alone(p: Phase, writes: nat, done: nat, lock: bool, slot: bool): Connection {
    Connection(false, lock, slot, false, [Writer(p, writes, done)], [])
  }

  /** An attempt of the only writer, up to the write. */
  lemma TakesHalf(m: string, pieces: seq<Piece>, a: nat, writes: nat)
    requires WireReached(Wire(Alone(Trying(a), writes, 0, false, true), [m], pieces))
    ensures WireReached(Wire(Alone(Writing(a), writes + 1, 0, true, false), [m], pieces))
  {
    hide WireReached;
    var go := Event(Write(0, Timeout), "", 0);
    var s0 := Wire(Alone(Trying(a), writes, 0, false, true), [m], pieces);
    var s1 := Wire(Alone(Locked(a), writes, 0, true, true), [m], pieces);
    var s2 := Wire(Alone(Writing(a), writes + 1, 0, true, false), [m], pieces);
    assert Happened(s0, go) == s1;
    ReachWire(s0, go, s1);
    assert Happened(s1, go) == s2;
    ReachWire(s1, go, s2);
  }

  lemma EntersWriter(m: string)
    requires IsLine(m)
    ensures WireReached(Wire(Alone(Trying(0), 0, 0, false, true), [m], []))
  {
    assert IsWireRun([], [FRESH]) && [FRESH][0] == FRESH;
    assert WireReached(FRESH);
    hide WireReached, IsLine;
    var arrive, go := Event(NewWriter, m, 0), Event(Write(0, Success), "", 0);
    var s1 := Wire(Alone(Entering, 0, 0, false, true), [m], []);
    assert Happened(FRESH, arrive) == s1;
    ReachWire(FRESH, arrive, s1);
    ReachWire(s1, go, Wire(Alone(Trying(0), 0, 0, false, true), [m], []));
  }

  /** The write of the only writer times out after `k` characters, and it comes to its second try. */
  lemma TimesOut(m: string, k: nat)
    requires k < |m| && WireReached(Wire(Alone(Writing(0), 1, 0, true, false), [m], []))
    ensures WireReached(Wire(Alone(Trying(1), 1, 0, false, true), [m], [Piece(0, m[..k], false)]))
  {
    hide WireReached;
    var out, go := Event(Write(0, Timeout), "", k), Event(Write(0, Timeout), "", 0);
    var pieces := [Piece(0, m[..k], false)];
    var s0 := Wire(Alone(Writing(0), 1, 0, true, false), [m], []);
    var s1 := Wire(Alone(Holding(0, Timeout), 1, 0, true, false), [m], pieces);
    var s2 := Wire(Alone(Releasing(0, Timeout), 1, 0, true, true), [m], pieces);
    assert Happened(s0, out) == s1;
    ReachWire(s0, out, s1);
    assert Happened(s1, go) == s2;
    ReachWire(s1, go, s2);
    ReachWire(s2, go, Wire(Alone(Trying(1), 1, 0, false, true), [m], pieces));
  }

  /** For every message and every place its first write may break off at, the retry goes through, and
      the other side reads one line: the beginning of the message, and the message. */
  lemma RetryGarbles(m: string, k: nat) returns (s: Wire)
    requires IsLine(m) && 0 < k < |m|
    ensures WireReached(s) && Delivered(s.pieces) == [m[..|m| - 1]]
    ensures Complete(Text(s.pieces)) == [m[..k] + m[..|m| - 1]]
  {
    hide WireReached;
    EntersWriter(m);
    TakesHalf(m, [], 0, 0);
    TimesOut(m, k);
    TakesHalf(m, [Piece(0, m[..k], false)], 1, 1);
    var full := Event(Write(0, Success), "", |m|);
    var s0 := Wire(Alone(Writing(1), 2, 0, true, false), [m], [Piece(0, m[..k], false)]);
    s := Wire(Alone(Holding(1, Success), 2, 1, true, false), [m], [Piece(0, m[..k], false), Piece(0, m, true)]);
    assert m[..|m|] == m;
    assert Happened(s0, full) == s;
    ReachWire(s0, full, s);
    hide Happened, CanHappen;
    GarbledLine(m, k);
  }

  lemma GarbledLine(m: string, k: nat)
    requires IsLine(m) && 0 < k < |m|
    ensures var pieces := [Piece(0, m[..k], false), Piece(0, m, true)];
      Delivered(pieces) == [m[..|m| - 1]] && Complete(Text(pieces)) == [m[..k] + m[..|m| - 1]]
  {
    var a, b := Piece(0, m[..k], false), Piece(0, m, true);
    PrefixOfLine(m, k, false, 0);
    PrefixOfLine(m, |m|, true, 0);
    assert m[..|m|] == m;
    assert [] + [a] == [a] && [a] + [b] == [a, b];
    NoPieces();
    hide Complete, Rest, Text, Delivered, PieceFits;
    PieceAdds([], a);
    assert Rest(Text([a])) == m[..k] && Complete(Text([a])) == [];
    PieceAdds([a], b);
    DeliveredPush([], a);
    assert Delivered([a]) == [];
    DeliveredPush([a], b);
  }
}
