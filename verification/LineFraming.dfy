/** The client listener's framing: reads of up to 1024 bytes are stripped of NULs, collected in a
    line buffer and cut into trimmed lines. Text is ASCII. */
module LineFraming {
  const MAX_STRATUM_LINE_BYTES: nat := 65536
  const READ_BYTES: nat := 1024

  // ---------- Text ----------

  predicate White(c: char) {
    c == ' ' || '\t' <= c <= '\r'
  }

  function TrimLeft(s: string): string {
    if s != "" && White(s[0]) then TrimLeft(s[1..]) else s
  }

  function TrimRight(s: string): string {
    if s != "" && White(s[|s| - 1]) then TrimRight(s[..|s| - 1]) else s
  }

  function Trim(s: string): string {
    TrimRight(TrimLeft(s))
  }

  function StripNuls(s: string): string {
    if s == "" then "" else StripNuls(s[..|s| - 1]) + (if s[|s| - 1] == '\0' then "" else [s[|s| - 1]])
  }

  /** Nothing but the characters trimmed away: space, tab, line feed, vertical tab, form feed and
      carriage return. */
  ghost predicate Blank(s: string) {
    forall c :: c in s ==> c in {' ', '\t', '\n', '\U{0B}', '\U{0C}', '\r'}
  }

  lemma {:induction false} TrimLeftParts(s: string) returns (a: string)
    ensures s == a + TrimLeft(s) && Blank(a)
    ensures TrimLeft(s) != "" ==> !White(TrimLeft(s)[0])
  {
    a := "";
    if s != "" && White(s[0]) {
      var a' := TrimLeftParts(s[1..]);
      a := [s[0]] + a';
    }
  }

  lemma {:induction false} TrimRightParts(s: string) returns (b: string)
    ensures s == TrimRight(s) + b && Blank(b)
    ensures TrimRight(s) != "" ==> !White(TrimRight(s)[|TrimRight(s)| - 1])
  {
    b := "";
    if s != "" && White(s[|s| - 1]) {
      var b' := TrimRightParts(s[..|s| - 1]);
      b := b' + [s[|s| - 1]];
    }
  }

  /** What is trimmed away is blank at either end, and what is left neither begins nor ends blank. */
  lemma Trimmed(s: string) returns (a: string, b: string)
    ensures s == a + Trim(s) + b && Blank(a) && Blank(b)
    ensures Trim(s) != "" ==> !Blank([Trim(s)[0]]) && !Blank([Trim(s)[|Trim(s)| - 1]])
  {
    hide TrimLeft, TrimRight;
    a := TrimLeftParts(s);
    b := TrimRightParts(TrimLeft(s));
    if Trim(s) != "" {
      assert Trim(s)[0] == TrimLeft(s)[0];
      NotBlank(Trim(s)[0]);
      NotBlank(Trim(s)[|Trim(s)| - 1]);
    }
  }

  lemma NotBlank(c: char)
    requires !White(c)
    ensures !Blank([c])
  {
    assert c in [c];
  }

  /** No NUL is left, and every other character is kept as often as it came. */
  lemma {:induction false} Nulless(s: string)
    ensures '\0' !in StripNuls(s) && ('\0' !in s ==> StripNuls(s) == s)
    ensures forall c :: c != '\0' ==> multiset(StripNuls(s))[c] == multiset(s)[c]
  {
    if s != "" {
      var n := |s| - 1;
      assert s == s[..n] + [s[n]];
      Nulless(s[..n]);
    }
  }

  /** Where the first newline is, or the length of the text when there is none. */
  function Newline(s: string): (p: nat)
    ensures p <= |s|
  {
    if s == "" || s[0] == '\n' then 0 else Newline(s[1..]) + 1
  }

  predicate HttpWord(line: string) {
    || "PRI * HTTP/2.0" <= line || "PRI * HTTP/2" <= line
    || "GET " <= line || "POST " <= line || "PUT " <= line
    || "DELETE " <= line || "HEAD " <= line || "OPTIONS " <= line
  }

  predicate Http(line: string) {
    line == "SM" || HttpWord(line)
  }

  // ---------- The listener ----------

  datatype Listener = Listener(buffer: string, first: bool, open: bool, dispatched: seq<string>)

  const START := Listener("", true, true, [])

  /** The loop over complete lines. */
  function Drained(l: Listener): Listener
    decreases |l.buffer|
  {
    var p := Newline(l.buffer);
    if p == |l.buffer| then l
    else
      var line, rest := Trim(l.buffer[..p]), l.buffer[p + 1..];
      if line == "" then Drained(l.(buffer := rest))
      else if Http(line) then l.(buffer := rest, open := false)
      else Drained(l.(buffer := rest, dispatched := l.dispatched + [line]))
  }

  predicate FirstMessageRejected(data: string) {
    Http(Trim(data[..Newline(data)]))
  }

  /** One read. */
  function Fed(l: Listener, read: string): Listener {
    var data := StripNuls(read);
    if !l.open then l
    else if l.first && FirstMessageRejected(data) then l.(open := false)
    else if |l.buffer| + |data| > MAX_STRATUM_LINE_BYTES then l.(first := false, open := false)
    else Drained(l.(first := false, buffer := l.buffer + data))
  }

  class ClientListener {
    var lineBuffer: string
    var firstMessage: bool
    var connected: bool
    var dispatched: seq<string>

    constructor ()
      ensures State() == START
    {
      lineBuffer, firstMessage, connected, dispatched := "", true, true, [];
    }

    function State(): Listener
      reads this
    {
      Listener(lineBuffer, firstMessage, connected, dispatched)
    }

    method AppendLineData(data: string) returns (ok: bool)
      modifies `lineBuffer
      ensures ok == (|old(lineBuffer)| + |data| <= 65536)
      ensures lineBuffer == if ok then old(lineBuffer) + data else old(lineBuffer)
    {
      if |lineBuffer| + |data| > MAX_STRATUM_LINE_BYTES {
        return false;
      }
      lineBuffer := lineBuffer + data;
      return true;
    }

    /** The body of the read loop. */
    method Read(read: string)
      requires connected
      modifies this
      ensures State() == Fed(old(State()), read)
    {
      hide Http, Trim, StripNuls;
      var data := Stripped(read);
      if firstMessage {
        var firstLine := Trim(data[..Newline(data)]);
        if Http(firstLine) {
          connected := false;
          return;
        }
        firstMessage := false;
      }
      var ok := AppendLineData(data);
      if !ok {
        connected := false;
        return;
      }
      DrainLines();
    }

    /** The loop over complete lines. */
    method DrainLines()
      requires connected
      modifies this
      ensures State() == Drained(old(State()))
    {
      hide Http, Trim, Newline, Drained;
      ghost var l := State();
      var p := Newline(lineBuffer);
      while p < |lineBuffer|
        invariant p == Newline(lineBuffer) && connected
        invariant Drained(State()) == Drained(l)
        decreases |lineBuffer|
      {
        var line := Trim(lineBuffer[..p]);
        ghost var before := State();
        lineBuffer := lineBuffer[p + 1..];
        DrainedStep(before, line, lineBuffer);
        if line != "" {
          if Http(line) {
            connected := false;
            return;
          }
          dispatched := dispatched + [line];
        }
        assert dispatched == before.dispatched + NonEmpty(line);
        p := Newline(lineBuffer);
      }
      DrainedDone(State());
    }
  }

  method Stripped(s: string) returns (r: string)
    ensures r == StripNuls(s)
  {
    r := "";
    for i := 0 to |s|
      invariant r == StripNuls(s[..i])
    {
      assert s[..i + 1][..i] == s[..i];
      if s[i] != '\0' {
        r := r + [s[i]];
      }
    }
    assert s[..|s|] == s;
  }

  // ---------- What the lines of a stream are ----------

  function NonEmpty(line: string): seq<string> {
    if line == "" then [] else [line]
  }

  /** The non-empty trimmed newline-terminated segments, in order. */
  function Lines(x: string): seq<string>
    decreases |x|
  {
    var p := Newline(x);
    if p == |x| then [] else NonEmpty(Trim(x[..p])) + Lines(x[p + 1..])
  }

  /** What is left after the last newline. */
  function Rest(x: string): string
    decreases |x|
  {
    var p := Newline(x);
    if p == |x| then x else Rest(x[p + 1..])
  }

  predicate Clean(lines: seq<string>) {
    forall i :: 0 <= i < |lines| ==> !Http(lines[i])
  }

  /** The lines before the first one that looks like HTTP. */
  function BeforeHttp(lines: seq<string>): seq<string> {
    if lines == [] || Http(lines[0]) then [] else [lines[0]] + BeforeHttp(lines[1..])
  }

  function Flatten(chunks: seq<string>): string {
    if chunks == [] then "" else Flatten(chunks[..|chunks| - 1]) + chunks[|chunks| - 1]
  }

  function Stream(chunks: seq<string>): string {
    StripNuls(Flatten(chunks))
  }

  function Listened(chunks: seq<string>): Listener {
    if chunks == [] then START else Fed(Listened(chunks[..|chunks| - 1]), chunks[|chunks| - 1])
  }

  // ---------- Text lemmas ----------

  lemma {:induction false} StripConcat(a: string, b: string)
    ensures StripNuls(a + b) == StripNuls(a) + StripNuls(b)
  {
    if b == "" {
      assert a + b == a;
    } else {
      assert (a + b)[..|a + b| - 1] == a + b[..|b| - 1];
      StripConcat(a, b[..|b| - 1]);
    }
  }

  lemma {:induction false} StripShrinks(a: string)
    ensures |StripNuls(a)| <= |a|
  {
    if a != "" {
      StripShrinks(a[..|a| - 1]);
    }
  }

  lemma {:induction false} NewlineIsFirst(s: string)
    ensures '\n' !in s[..Newline(s)] && (Newline(s) < |s| ==> s[Newline(s)] == '\n')
  {
    if s != "" && s[0] != '\n' {
      NewlineIsFirst(s[1..]);
      var p := Newline(s);
      assert s[..p] == [s[0]] + s[1..][..p - 1];
    }
  }

  /** The first newline of a text is the first newline of any extension of it. */
  lemma {:induction false} NewlineConcat(x: string, y: string)
    ensures Newline(x) < |x| ==> Newline(x + y) == Newline(x)
    ensures Newline(x) == |x| ==> Newline(x + y) == |x| + Newline(y)
  {
    if x == "" {
      assert x + y == y;
    } else if x[0] != '\n' {
      assert (x + y)[1..] == x[1..] + y;
      NewlineConcat(x[1..], y);
    }
  }

  lemma {:induction false} RestHasNoNewline(x: string)
    ensures Newline(Rest(x)) == |Rest(x)| && '\n' !in Rest(x) && |Rest(x)| <= |x|
    decreases |x|
  {
    var p := Newline(x);
    if p < |x| {
      RestHasNoNewline(x[p + 1..]);
    } else {
      NewlineIsFirst(x);
      assert x[..p] == x;
    }
  }

  /** A stream can be cut anywhere: the second part continues with what the first left over. */
  lemma {:induction false} LinesConcat(x: string, y: string)
    ensures Lines(x + y) == Lines(x) + Lines(Rest(x) + y) && Rest(x + y) == Rest(Rest(x) + y)
    decreases |x|
  {
    hide Trim, NonEmpty, Newline, Lines, Rest;
    var p := Newline(x);
    NewlineConcat(x, y);
    if p < |x| {
      var x', h := x[p + 1..], NonEmpty(Trim(x[..p]));
      assert (x + y)[..p] == x[..p] && (x + y)[p + 1..] == x' + y;
      LinesStep(x, p);
      LinesStep(x + y, p);
      LinesConcat(x', y);
      Regroup(h, Lines(x'), Lines(Rest(x') + y));
    } else {
      NoLines(x);
    }
  }

  lemma LinesStep(x: string, p: nat)
    requires p == Newline(x) < |x|
    ensures Lines(x) == NonEmpty(Trim(x[..p])) + Lines(x[p + 1..]) && Rest(x) == Rest(x[p + 1..])
  {
    hide Trim, NonEmpty, Newline;
  }

  lemma NoLines(x: string)
    requires Newline(x) == |x|
    ensures Lines(x) == [] && Rest(x) == x
  {
    hide Newline;
  }

  lemma Regroup(a: seq<string>, b: seq<string>, c: seq<string>)
    ensures a + (b + c) == (a + b) + c
  {
  }

  lemma {:induction false} TrimLeftConcat(p: string, rest: string)
    requires TrimLeft(p) != ""
    ensures TrimLeft(p + rest) == TrimLeft(p) + rest
  {
    if White(p[0]) {
      assert (p + rest)[1..] == p[1..] + rest;
      TrimLeftConcat(p[1..], rest);
    }
  }

  lemma {:induction false} TrimRightPrefix(q: string)
    ensures TrimRight(q) <= q
  {
    if q != "" && White(q[|q| - 1]) {
      TrimRightPrefix(q[..|q| - 1]);
    }
  }

  lemma {:induction false} TrimRightConcat(q: string, rest: string)
    ensures TrimRight(q) <= TrimRight(q + rest)
    decreases |rest|
  {
    if rest == "" {
      assert q + rest == q;
    } else if White(rest[|rest| - 1]) {
      assert (q + rest)[..|q + rest| - 1] == q + rest[..|rest| - 1];
      TrimRightConcat(q, rest[..|rest| - 1]);
    } else {
      TrimRightPrefix(q);
    }
  }

  /** Trimming what has come so far of a line gives a prefix of the trimmed line. */
  lemma TrimPrefix(p: string, rest: string)
    requires Trim(p) != ""
    ensures Trim(p) <= Trim(p + rest)
  {
    TrimLeftConcat(p, rest);
    TrimRightConcat(TrimLeft(p), rest);
  }

  lemma HttpWordExtends(a: string, b: string)
    requires HttpWord(a) && a <= b
    ensures HttpWord(b) && b != ""
  {
  }

  lemma CleanConcat(a: seq<string>, b: seq<string>)
    ensures Clean(a + b) <==> Clean(a) && Clean(b)
  {
    hide Http;
    if Clean(a + b) {
      assert forall i :: 0 <= i < |a| ==> a[i] == (a + b)[i];
      assert forall i :: 0 <= i < |b| ==> b[i] == (a + b)[|a| + i];
    }
  }

  lemma CleanFirst(a: seq<string>)
    requires a != []
    ensures Clean(a) <==> !Http(a[0]) && Clean(a[1..])
  {
    hide Http;
    assert a == [a[0]] + a[1..];
    CleanConcat([a[0]], a[1..]);
  }

  lemma BeforeHttpFirst(a: seq<string>, b: seq<string>)
    requires a != [] && !Http(a[0])
    ensures BeforeHttp(a + b) == [a[0]] + BeforeHttp(a[1..] + b)
  {
    hide Http;
    assert (a + b)[0] == a[0] && (a + b)[1..] == a[1..] + b;
  }

  lemma {:induction false} CleanBefore(a: seq<string>, b: seq<string>)
    requires Clean(a)
    ensures BeforeHttp(a + b) == a + BeforeHttp(b)
  {
    hide Http;
    if a == [] {
      assert a + b == b;
    } else {
      CleanFirst(a);
      hide Clean;
      CleanBefore(a[1..], b);
      BeforeHttpFirst(a, b);
      var t, r := a[1..], BeforeHttp(b);
      assert [a[0]] + (t + r) == ([a[0]] + t) + r;
      assert a == [a[0]] + t;
    }
  }

  lemma {:induction false} DirtyBefore(a: seq<string>, b: seq<string>)
    requires !Clean(a)
    ensures BeforeHttp(a + b) == BeforeHttp(a) && BeforeHttp(a) != a
  {
    hide Http;
    assert a != [];
    CleanFirst(a);
    hide Clean;
    assert (a + b)[0] == a[0] && (a + b)[1..] == a[1..] + b;
    if !Http(a[0]) {
      DirtyBefore(a[1..], b);
      assert a[1..] == ([a[0]] + a[1..])[1..];
      assert BeforeHttp(a)[1..] == BeforeHttp(a[1..]);
    }
  }

  lemma BeforeHttpConcat(a: seq<string>, b: seq<string>)
    ensures BeforeHttp(a + b) == if Clean(a) then a + BeforeHttp(b) else BeforeHttp(a)
    ensures Clean(a) <==> BeforeHttp(a) == a
  {
    hide Http;
    if Clean(a) {
      CleanBefore(a, b);
      CleanBefore(a, []);
      assert a + [] == a && BeforeHttp([]) == [];
    } else {
      hide Clean, BeforeHttp;
      DirtyBefore(a, b);
    }
  }

  // ---------- Reads ----------

  lemma FirstLine(x: string, line: string, rest: string)
    requires var p := Newline(x); p < |x| && line == Trim(x[..p]) && rest == x[p + 1..]
    ensures Rest(x) == Rest(rest)
    ensures line == "" ==> Lines(x) == Lines(rest)
    ensures line != "" && Http(line) ==> BeforeHttp(Lines(x)) == [] && !Clean(Lines(x))
    ensures line != "" && !Http(line) ==>
      BeforeHttp(Lines(x)) == [line] + BeforeHttp(Lines(rest)) && (Clean(Lines(x)) <==> Clean(Lines(rest)))
  {
    hide Trim, Http, Newline;
    assert Lines(x) == NonEmpty(line) + Lines(rest);
    var ls := Lines(rest);
    if line != "" {
      assert ([line] + ls)[1..] == ls && ([line] + ls)[0] == line;
      CleanConcat([line], ls);
    }
  }

  lemma DrainedStep(l: Listener, line: string, rest: string)
    requires var p := Newline(l.buffer); p < |l.buffer| && line == Trim(l.buffer[..p]) && rest == l.buffer[p + 1..]
    ensures Drained(l) == if line != "" && Http(line) then l.(buffer := rest, open := false)
                          else Drained(l.(buffer := rest, dispatched := l.dispatched + NonEmpty(line)))
  {
    hide Trim, Http, Newline;
    if line == "" {
      assert l.dispatched + NonEmpty(line) == l.dispatched;
    }
  }

  ghost predicate DrainedTo(l: Listener, l': Listener) {
    && l'.dispatched == l.dispatched + BeforeHttp(Lines(l.buffer))
    && (l'.open <==> Clean(Lines(l.buffer))) && (l'.open ==> l'.buffer == Rest(l.buffer))
    && l'.first == l.first
  }

  lemma DrainedOn(l: Listener, next: Listener, l': Listener, line: string)
    requires next == l.(buffer := next.buffer, dispatched := l.dispatched + NonEmpty(line)) && DrainedTo(next, l')
    requires Rest(l.buffer) == Rest(next.buffer) && (Clean(Lines(l.buffer)) <==> Clean(Lines(next.buffer)))
    requires BeforeHttp(Lines(l.buffer)) == NonEmpty(line) + BeforeHttp(Lines(next.buffer))
    ensures DrainedTo(l, l')
  {
    hide Lines, Rest, Clean, BeforeHttp, NonEmpty;
    assert (l.dispatched + NonEmpty(line)) + BeforeHttp(Lines(next.buffer)) == l.dispatched + BeforeHttp(Lines(l.buffer));
  }

  lemma DrainedNone(l: Listener)
    requires l.open && Newline(l.buffer) == |l.buffer|
    ensures DrainedTo(l, Drained(l))
  {
    hide Trim, Http;
    assert Lines(l.buffer) == [] && Rest(l.buffer) == l.buffer;
  }

  lemma DrainedHttp(l: Listener, rest: string)
    requires BeforeHttp(Lines(l.buffer)) == [] && !Clean(Lines(l.buffer))
    ensures DrainedTo(l, l.(buffer := rest, open := false))
  {
    hide Lines, Rest, Clean, BeforeHttp;
  }

  lemma DrainedDone(l: Listener)
    requires Newline(l.buffer) == |l.buffer|
    ensures Drained(l) == l
  {
    hide Trim, Http;
  }

  /** Draining the buffer dispatches its lines up to the first that looks like HTTP, which closes
      the connection; without one, what is after the last newline stays. */
  lemma {:induction false} DrainedLines(l: Listener)
    requires l.open
    ensures DrainedTo(l, Drained(l))
    decreases |l.buffer|
  {
    hide Trim, Http, Lines, Rest, Clean, BeforeHttp, DrainedTo, Drained;
    var p := Newline(l.buffer);
    if p == |l.buffer| {
      DrainedNone(l);
    } else {
      var line, rest := Trim(l.buffer[..p]), l.buffer[p + 1..];
      FirstLine(l.buffer, line, rest);
      DrainedStep(l, line, rest);
      if line != "" && Http(line) {
        DrainedHttp(l, rest);
      } else {
        var next := l.(buffer := rest, dispatched := l.dispatched + NonEmpty(line));
        DrainedLines(next);
        assert BeforeHttp(Lines(l.buffer)) == NonEmpty(line) + BeforeHttp(Lines(rest));
        DrainedOn(l, next, Drained(l), line);
      }
    }
  }

  // ---------- Streams ----------

  /** What has come of the first line can only become a line that looks like HTTP. */
  predicate HttpStart(x: string) {
    HttpWord(Trim(x[..Newline(x)]))
  }

  /** Nothing that may still come is dispatched. */
  predicate Doomed(x: string) {
    !Clean(Lines(x)) || HttpStart(x)
  }

  lemma HttpStartExtends(x: string, y: string)
    requires HttpStart(x)
    ensures HttpStart(x + y) && BeforeHttp(Lines(x + y)) == []
  {
    hide HttpWord, Trim, Newline;
    var z, p := x + y, Newline(x);
    NewlineConcat(x, y);
    var q := Newline(z);
    var a, b := Trim(x[..p]), Trim(z[..q]);
    assert a <= b by {
      HttpWordExtends(a, a);
      assert p <= q && z[..q] == x[..p] + z[p..q];
      TrimPrefix(x[..p], z[p..q]);
    }
    HttpWordExtends(a, b);
    if q < |z| {
      FirstLine(z, b, z[q + 1..]);
    }
  }

  lemma DoomedExtends(x: string, y: string)
    requires Doomed(x)
    ensures Doomed(x + y) && BeforeHttp(Lines(x + y)) == BeforeHttp(Lines(x))
  {
    if HttpStart(x) {
      HttpStartExtends(x, y);
      HttpStartExtends(x, "");
      assert x + "" == x;
    } else {
      LinesConcat(x, y);
      hide HttpStart, Lines, Rest, Http;
      BeforeHttpConcat(Lines(x), Lines(Rest(x) + y));
      CleanConcat(Lines(x), Lines(Rest(x) + y));
    }
  }

  lemma StreamSteps(chunks: seq<string>)
    requires chunks != []
    ensures Stream(chunks) == Stream(chunks[..|chunks| - 1]) + StripNuls(chunks[|chunks| - 1])
  {
    StripConcat(Flatten(chunks[..|chunks| - 1]), chunks[|chunks| - 1]);
  }

  /** What every listener keeps, after the stream `x`: while it is open it has dispatched all lines
      and holds the rest, without a newline and within bounds; at no time has it dispatched
      anything but lines of the stream, in order, before the first that looks like HTTP. */
  ghost predicate Framed(l: Listener, x: string) {
    && (l.open ==> l.buffer == Rest(x) && |l.buffer| <= MAX_STRATUM_LINE_BYTES && Clean(Lines(x)) && l.dispatched == Lines(x))
    && l.dispatched <= BeforeHttp(Lines(x))
  }

  lemma ClosedFramed(l: Listener, x: string, y: string)
    requires !l.open && Framed(l, x)
    ensures Framed(l, x + y)
  {
    LinesConcat(x, y);
    hide Lines, Rest, Http;
    BeforeHttpConcat(Lines(x), Lines(Rest(x) + y));
  }

  /** A read that is appended takes the listener on along the stream. */
  lemma AppendedFramed(l: Listener, x: string, data: string)
    requires l.open && Framed(l, x) && |l.buffer| + |data| <= MAX_STRATUM_LINE_BYTES
    ensures var l' := Drained(l.(first := false, buffer := l.buffer + data));
      && Framed(l', x + data) && !l'.first && l'.dispatched == BeforeHttp(Lines(x + data)) && (l'.open <==> Clean(Lines(x + data)))
  {
    var m := l.(first := false, buffer := l.buffer + data);
    DrainedLines(m);
    LinesConcat(x, data);
    RestHasNoNewline(m.buffer);
    hide Lines, Rest, Http, Drained;
    var a, b := Lines(x), Lines(m.buffer);
    BeforeHttpConcat(a, b);
    CleanConcat(a, b);
    BeforeHttpConcat(b, []);
    hide Clean, BeforeHttp;
  }

  lemma FedFramed(l: Listener, x: string, read: string)
    requires Framed(l, x)
    ensures Framed(Fed(l, read), x + StripNuls(read))
  {
    hide StripNuls, FirstMessageRejected;
    var data := StripNuls(read);
    if !l.open {
      hide Drained;
      ClosedFramed(l, x, data);
    } else if (l.first && FirstMessageRejected(data)) || |l.buffer| + |data| > MAX_STRATUM_LINE_BYTES {
      hide Drained;
      ClosedFramed(l.(open := false), x, data);
      ClosedFramed(l.(open := false, first := false), x, data);
    } else {
      AppendedFramed(l, x, data);
    }
  }

  /** However the stream is split: an open listener has dispatched exactly the lines of the stream
      and holds what follows the last newline, at most 64 KiB; a closed one has dispatched a prefix
      of the lines before the first that looks like HTTP. */
  lemma {:induction false} ListenedFramed(chunks: seq<string>)
    ensures Framed(Listened(chunks), Stream(chunks)) && '\n' !in Rest(Stream(chunks))
  {
    RestHasNoNewline(Stream(chunks));
    if chunks == [] {
      assert Lines("") == [] && Rest("") == "" && Stream(chunks) == "";
    } else {
      ListenedFramed(chunks[..|chunks| - 1]);
      StreamSteps(chunks);
      hide Framed, Stream, Fed;
      FedFramed(Listened(chunks[..|chunks| - 1]), Stream(chunks[..|chunks| - 1]), chunks[|chunks| - 1]);
    }
  }

  // ---------- What a dispatched line looks like ----------

  /** What HTTP begins with: the preface of its second version, and requests. */
  const HTTP_STARTS := ["PRI * HTTP/2", "GET ", "POST ", "PUT ", "DELETE ", "HEAD ", "OPTIONS "]

  ghost predicate StartsHttp(line: string) {
    exists i :: 0 <= i < |HTTP_STARTS| && HTTP_STARTS[i] <= line
  }

  lemma HttpIff(line: string)
    ensures Http(line) <==> line == "SM" || StartsHttp(line)
  {
    if "PRI * HTTP/2.0" <= line {
      assert line[..12] == "PRI * HTTP/2";
    }
    assert HTTP_STARTS[0] <= line || HTTP_STARTS[1] <= line || HTTP_STARTS[2] <= line || HTTP_STARTS[3] <= line
           || HTTP_STARTS[4] <= line || HTTP_STARTS[5] <= line || HTTP_STARTS[6] <= line || !HttpWord(line);
  }

  lemma {:induction false} LineOf(x: string, line: string) returns (raw: string)
    requires line in Lines(x)
    ensures line == Trim(raw) != "" && '\n' !in raw && forall c :: c in raw ==> c in x
    decreases |x|
  {
    hide Trim;
    var p := Newline(x);
    NewlineIsFirst(x);
    if line in NonEmpty(Trim(x[..p])) {
      raw := x[..p];
    } else {
      raw := LineOf(x[p + 1..], line);
    }
  }

  lemma {:induction false} BeforeHttpIn(lines: seq<string>, line: string)
    requires line in BeforeHttp(lines)
    ensures line in lines && !Http(line)
  {
    hide Http;
    if line != lines[0] {
      BeforeHttpIn(lines[1..], line);
    }
  }

  /** Whatever the reads, every line dispatched is a single non-empty line without NULs, white at neither
      end, and none that HTTP begins with. */
  lemma DispatchedLines(chunks: seq<string>, line: string)
    requires line in Listened(chunks).dispatched
    ensures line != "" && '\n' !in line && '\0' !in line
    ensures !Blank([line[0]]) && !Blank([line[|line| - 1]])
    ensures line != "SM" && !StartsHttp(line)
  {
    hide Listened, Lines, Rest, Clean, Http, StartsHttp, StripNuls, Trim, Blank;
    ListenedFramed(chunks);
    BeforeHttpIn(Lines(Stream(chunks)), line);
    HttpIff(line);
    var raw := LineOf(Stream(chunks), line);
    var a, b := Trimmed(raw);
    Nulless(Flatten(chunks));
    assert forall c :: c in line ==> c in raw;
  }
}
