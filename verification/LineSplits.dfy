/** How much it matters where the reads of a stream end: exactly what a listener dispatches for every
    way to split it. */
module LineSplits {
  import opened LineFraming

  /** No read overruns the line buffer. */
  ghost predicate Fits(chunks: seq<string>) {
    forall m :: 0 <= m < |chunks| ==> FitsAt(chunks, m)
  }

  predicate FitsAt(chunks: seq<string>, m: nat)
    requires m < |chunks|
  {
    |Rest(Stream(chunks[..m]))| + |StripNuls(chunks[m])| <= MAX_STRATUM_LINE_BYTES
  }

  /** The first read ends inside a line that so far is exactly the bare word:
      the one case in which the first message is judged by the beginning of a line. */
  predicate CutAfterSM(data: string) {
    Newline(data) == |data| && Trim(data) == "SM"
  }

  /** What the rejection of a first message means for the lines. */
  lemma FirstRejected(data: string)
    requires FirstMessageRejected(data)
    ensures CutAfterSM(data) || Doomed(data)
    ensures BeforeHttp(Lines(data)) == []
  {
    var p := Newline(data);
    var line := Trim(data[..p]);
    assert line != "" by {
      if HttpWord(line) {
        HttpWordExtends(line, line);
      }
    }
    if p == |data| {
      assert data[..p] == data;
    } else {
      FirstLine(data, line, data[p + 1..]);
    }
  }

  /** A listener that has read something that was not cut short of the bare word. */
  ghost predicate Exact(l: Listener, x: string) {
    && Framed(l, x) && l.dispatched == BeforeHttp(Lines(x)) && (l.open ==> !l.first) && (!l.open ==> Doomed(x))
  }

  lemma FirstExact(read: string)
    requires |StripNuls(read)| <= MAX_STRATUM_LINE_BYTES && !CutAfterSM(StripNuls(read))
    ensures Exact(Fed(START, read), StripNuls(read))
  {
    hide StripNuls, FirstMessageRejected, CutAfterSM;
    if FirstMessageRejected(StripNuls(read)) {
      RejectedExact(StripNuls(read));
    } else {
      AcceptedExact(StripNuls(read));
    }
    hide Exact, Drained;
  }

  lemma RejectedExact(data: string)
    requires FirstMessageRejected(data) && !CutAfterSM(data)
    ensures Exact(START.(open := false), data)
  {
    hide CutAfterSM, FirstMessageRejected, Doomed, Lines, Rest;
    FirstRejected(data);
  }

  lemma AcceptedExact(data: string)
    requires |data| <= MAX_STRATUM_LINE_BYTES
    ensures Exact(Drained(START.(first := false, buffer := START.buffer + data)), data)
  {
    assert Lines("") == [] && Rest("") == "" && "" + data == data;
    hide HttpStart, Lines, Rest;
    AppendedFramed(START, "", data);
  }

  lemma NextExact(l: Listener, x: string, read: string)
    requires Exact(l, x) && |Rest(x)| + |StripNuls(read)| <= MAX_STRATUM_LINE_BYTES
    ensures Exact(Fed(l, read), x + StripNuls(read))
  {
    hide StripNuls, FirstMessageRejected, HttpStart, Clean;
    var data := StripNuls(read);
    if l.open {
      AppendedFramed(l, x, data);
    } else {
      ClosedFramed(l, x, data);
      hide Doomed;
      DoomedExtends(x, data);
    }
  }

  lemma {:induction false} ListenedExact(chunks: seq<string>)
    requires chunks != [] && Fits(chunks) && !CutAfterSM(StripNuls(chunks[0]))
    ensures Exact(Listened(chunks), Stream(chunks))
  {
    var n := |chunks| - 1;
    var prev := chunks[..n];
    assert FitsAt(chunks, n);
    StreamSteps(chunks);
    if n == 0 {
      assert prev == [] && Stream(prev) == "" && Rest("") == "";
      assert Stream(chunks) == StripNuls(chunks[0]);
      FirstExact(chunks[0]);
    } else {
      assert Fits(prev) by {
        forall m | 0 <= m < n ensures FitsAt(prev, m) {
          assert FitsAt(chunks, m) && prev[..m] == chunks[..m];
        }
      }
      ListenedExact(prev);
      hide Exact, Fed, Fits, Stream, CutAfterSM;
      NextExact(Listened(prev), Stream(prev), chunks[n]);
    }
  }

  lemma {:induction false} RejectedStaysClosed(chunks: seq<string>)
    requires chunks != [] && CutAfterSM(StripNuls(chunks[0]))
    ensures !Listened(chunks).open && Listened(chunks).dispatched == []
  {
    var n := |chunks| - 1;
    if n == 0 {
      assert chunks[..n] == [];
      var data := StripNuls(chunks[0]);
      assert data[..Newline(data)] == data;
    } else {
      RejectedStaysClosed(chunks[..n]);
      hide Drained, CutAfterSM, StripNuls, FirstMessageRejected;
    }
  }

  lemma FittingExact(chunks: seq<string>)
    requires chunks != [] && Fits(chunks) && !CutAfterSM(StripNuls(chunks[0]))
    ensures Listened(chunks).dispatched == BeforeHttp(Lines(Stream(chunks)))
  {
    ListenedExact(chunks);
  }

  // ---------- Every split ----------

  /** The first read from `m` on that overruns the buffer, or the number of reads. */
  function Overrun(chunks: seq<string>, m: nat): (n: nat)
    requires m <= |chunks|
    ensures m <= n <= |chunks| && (n < |chunks| ==> !FitsAt(chunks, n))
    ensures forall i :: m <= i < n ==> FitsAt(chunks, i)
    decreases |chunks| - m
  {
    if m == |chunks| || !FitsAt(chunks, m) then m else Overrun(chunks, m + 1)
  }

  /** How many reads the listener makes use of: none when the first is cut after the bare word, and
      otherwise those before the first that overruns the buffer. */
  function Used(chunks: seq<string>): (n: nat)
    ensures n <= |chunks|
  {
    if chunks != [] && CutAfterSM(StripNuls(chunks[0])) then 0 else Overrun(chunks, 0)
  }

  lemma {:induction false} ClosedStays(chunks: seq<string>, m: nat)
    requires m <= |chunks| && !Listened(chunks[..m]).open
    ensures Listened(chunks) == Listened(chunks[..m])
    decreases |chunks|
  {
    if m == |chunks| {
      assert chunks[..m] == chunks;
    } else {
      var prev := chunks[..|chunks| - 1];
      assert prev[..m] == chunks[..m];
      ClosedStays(prev, m);
      hide Drained, StripNuls, FirstMessageRejected;
    }
  }

  lemma PrefixFits(chunks: seq<string>, m: nat)
    requires m <= |chunks| && forall i :: 0 <= i < m ==> FitsAt(chunks, i)
    ensures Fits(chunks[..m])
  {
    var p := chunks[..m];
    hide FitsAt;
    forall i | 0 <= i < m ensures FitsAt(p, i) {
      SameFit(chunks, p, i);
    }
  }

  lemma SameFit(a: seq<string>, b: seq<string>, i: nat)
    requires i < |a| && i < |b| && a[..i + 1] == b[..i + 1] && FitsAt(a, i)
    ensures FitsAt(b, i)
  {
    assert a[..i] == a[..i + 1][..i] && b[..i] == b[..i + 1][..i];
    assert a[i] == a[..i + 1][i] && b[i] == b[..i + 1][i];
  }

  /** A read that overruns the buffer closes the listener and dispatches nothing. */
  lemma OverrunCloses(chunks: seq<string>, m: nat)
    requires m < |chunks| && !FitsAt(chunks, m)
    ensures var l, l' := Listened(chunks[..m]), Listened(chunks[..m + 1]);
      !l'.open && l'.dispatched == l.dispatched
  {
    var p := chunks[..m + 1];
    assert p[..m] == chunks[..m] && p[m] == chunks[m];
    ListenedFramed(chunks[..m]);
    hide Drained, FirstMessageRejected, Lines, Rest, Stream, StripNuls;
  }

  /** For every stream and every way to split it: what is dispatched are the lines, before the first
      that looks like HTTP, of the reads that are used. */
  lemma FramingExact(chunks: seq<string>)
    ensures Listened(chunks).dispatched == BeforeHttp(Lines(Stream(chunks[..Used(chunks)])))
  {
    hide CutAfterSM, FitsAt, Listened, Stream, Lines, BeforeHttp, StripNuls;
    var n := Used(chunks);
    if chunks != [] && CutAfterSM(StripNuls(chunks[0])) {
      RejectedStaysClosed(chunks);
      NothingUsed(chunks);
    } else {
      UsedExact(chunks, n);
      if n == |chunks| {
        assert chunks[..n] == chunks;
      } else {
        OverrunCloses(chunks, n);
        ClosedStays(chunks, n + 1);
      }
    }
  }

  lemma NothingUsed(chunks: seq<string>)
    ensures BeforeHttp(Lines(Stream(chunks[..0]))) == [] == Listened(chunks[..0]).dispatched
  {
    assert chunks[..0] == [];
  }

  lemma UsedExact(chunks: seq<string>, n: nat)
    requires n <= |chunks| && (forall i :: 0 <= i < n ==> FitsAt(chunks, i))
    requires chunks != [] ==> !CutAfterSM(StripNuls(chunks[0]))
    ensures Listened(chunks[..n]).dispatched == BeforeHttp(Lines(Stream(chunks[..n])))
  {
    hide CutAfterSM, FitsAt, Listened, Stream, Lines, BeforeHttp;
    if n == 0 {
      NothingUsed(chunks);
    } else {
      PrefixFits(chunks, n);
      FittingExact(chunks[..n]);
    }
  }

  lemma {:induction false} StreamCut(chunks: seq<string>, m: nat)
    requires m <= |chunks|
    ensures Stream(chunks) == Stream(chunks[..m]) + Stream(chunks[m..])
    decreases |chunks|
  {
    hide Stream, StripNuls;
    if m == |chunks| {
      NoStream();
      assert chunks[..m] == chunks && chunks[m..] == [];
    } else {
      var n := |chunks| - 1;
      var prev, rest := chunks[..n], chunks[m..];
      assert prev[..m] == chunks[..m] && rest[..n - m] == prev[m..] && rest[n - m] == chunks[n];
      StreamCut(prev, m);
      StreamSteps(chunks);
      StreamSteps(rest);
      Joined(Stream(prev[..m]), Stream(prev[m..]), StripNuls(chunks[n]));
    }
  }

  lemma NoStream()
    ensures Stream([]) == ""
  {
  }

  lemma Joined(a: string, b: string, c: string)
    ensures (a + b) + c == a + (b + c)
  {
  }

  /** The lines before the first that looks like HTTP that only the unused reads complete. */
  function LostLines(chunks: seq<string>): seq<string> {
    var n := Used(chunks);
    var x := Stream(chunks[..n]);
    if Clean(Lines(x)) then BeforeHttp(Lines(Rest(x) + Stream(chunks[n..]))) else []
  }

  /** For every split what is dispatched and what is lost are together the lines of the whole stream
      before the first that looks like HTTP; so all of them are dispatched if and only if the unused
      reads complete none. */
  lemma NothingElseLost(chunks: seq<string>)
    ensures Listened(chunks).dispatched + LostLines(chunks) == BeforeHttp(Lines(Stream(chunks)))
    ensures Listened(chunks).dispatched == BeforeHttp(Lines(Stream(chunks))) <==> LostLines(chunks) == []
  {
    hide Listened, Used, Lines, BeforeHttp, Rest, Clean, Stream;
    FramingExact(chunks);
    var n := Used(chunks);
    var x, y := Stream(chunks[..n]), Stream(chunks[n..]);
    StreamCut(chunks, n);
    LinesConcat(x, y);
    BeforeHttpConcat(Lines(x), Lines(Rest(x) + y));
    EmptyTail(Listened(chunks).dispatched, LostLines(chunks));
  }

  lemma EmptyTail(a: seq<string>, b: seq<string>)
    ensures a + b == a <==> b == []
  {
    assert |a + b| == |a| + |b|;
  }

  /** Two splits of one stream dispatch the same lines if and only if their unused reads lose equally
      many. */
  lemma SplitIrrelevant(a: seq<string>, b: seq<string>)
    requires Flatten(a) == Flatten(b)
    ensures Listened(a).dispatched == Listened(b).dispatched <==> |LostLines(a)| == |LostLines(b)|
  {
    NothingElseLost(a);
    NothingElseLost(b);
    hide Listened, LostLines, Lines, BeforeHttp;
    assert Stream(a) == Stream(b);
    SameParts(Listened(a).dispatched, LostLines(a), Listened(b).dispatched, LostLines(b));
  }

  lemma SameParts(a: seq<string>, b: seq<string>, a': seq<string>, b': seq<string>)
    requires a + b == a' + b'
    ensures a == a' <==> |b| == |b'|
  {
    var s := a + b;
    assert a == s[..|a|] && a' == s[..|a'|];
  }

  // ---------- The two exceptions ----------

  lemma {:induction false} StripPlain(s: string)
    requires '\0' !in s
    ensures StripNuls(s) == s
  {
    if s != "" {
      var p, c := s[..|s| - 1], s[|s| - 1];
      assert s == p + [c] && c in s;
      assert StripNuls(s) == StripNuls(p) + [c];
      hide StripNuls;
      StripPlain(p);
    }
  }

  lemma {:induction false} NewlineAfter(s: string)
    requires '\n' !in s
    ensures Newline(s + "\n") == |s|
  {
    if s != "" {
      NewlineAfter(s[1..]);
      assert (s + "\n")[1..] == s[1..] + "\n";
    }
  }

  lemma BareSM(sm: string)
    requires sm == "SM"
    ensures StripNuls(sm) == sm && CutAfterSM(sm) && Trim(sm) == sm && '\n' !in sm && '\0' !in sm
  {
    StripPlain(sm);
  }

  lemma SMLine(sm: string, w: string, x: string)
    requires sm == "SM" && '\0' !in w && '\n' !in w && x == sm + w + "\n"
    ensures StripNuls(x) == x && Newline(x) == |x| - 1 && Trim(x[..|x| - 1]) != "" && x[..|x| - 1] == sm + w
  {
    BareSM(sm);
    TrimPrefix(sm, w);
    assert '\0' !in x;
    StripPlain(x);
    NewlineAfter(sm + w);
  }

  lemma TwoReads(sm: string, y: string)
    requires CutAfterSM(StripNuls(sm))
    ensures Flatten([sm, y]) == sm + y && Listened([sm, y]).dispatched == []
  {
    var a := [sm, y];
    RejectedStaysClosed(a);
    hide Listened;
    assert a[..1] == [sm] && [sm][..0] == [];
    assert Flatten([sm]) == "" + sm == sm;
  }

  /** And with the exception it does matter: any line that begins with "SM" and is no HTTP is lost
      when the first read ends right after those letters. */
  lemma SplitMatters(w: string)
    requires '\0' !in w && '\n' !in w && |w| <= READ_BYTES - 3 && !Http(Trim("SM" + w))
    ensures var a, b := ["SM", w + "\n"], ["SM" + w + "\n"];
      Flatten(a) == Flatten(b) && Listened(a).dispatched == [] && Listened(b).dispatched == [Trim("SM" + w)]
  {
    hide *;
    var sm := "SM";
    var x := sm + w + "\n";
    BareSM(sm);
    SMLine(sm, w, x);
    TwoReads(sm, w + "\n");
    assert sm + (w + "\n") == x;
    OneLine(x, Trim(sm + w));
  }

  lemma SingleRead(x: string)
    requires |x| <= READ_BYTES && StripNuls(x) == x
    ensures Flatten([x]) == x && Stream([x]) == x && Fits([x])
  {
    var b := [x];
    assert b[..0] == [] && Flatten(b) == "" + x;
    assert Rest(Stream(b[..0])) == "";
    assert FitsAt(b, 0);
  }

  lemma OneLine(x: string, line: string)
    requires |x| <= READ_BYTES && Newline(x) == |x| - 1 && StripNuls(x) == x
    requires line == Trim(x[..|x| - 1]) && line != "" && !Http(line)
    ensures Flatten([x]) == x && Listened([x]).dispatched == [line]
  {
    LinesOfOne(x, line);
    assert !CutAfterSM(x);
    SingleRead(x);
    hide *;
    FittingExact([x]);
  }

  lemma LinesOfOne(x: string, line: string)
    requires Newline(x) == |x| - 1 && line == Trim(x[..|x| - 1]) && line != "" && !Http(line)
    ensures BeforeHttp(Lines(x)) == [line]
  {
    assert x[|x|..] == "";
    hide Http, Trim, Newline;
    EmptyLines();
    FirstLine(x, line, "");
  }

  lemma EmptyLines()
    ensures Lines("") == [] && BeforeHttp(Lines("")) == [] && Rest("") == ""
  {
  }

  /** A stream read character by character. */
  function Singles(w: string): seq<string> {
    seq(|w|, i requires 0 <= i < |w| => [w[i]])
  }

  lemma {:induction false} FlattenSingles(w: string, more: seq<string>, m: nat)
    requires m <= |w|
    ensures Flatten((Singles(w) + more)[..m]) == w[..m]
  {
    var c := Singles(w) + more;
    if m > 0 {
      FlattenSingles(w, more, m - 1);
      assert c[..m][..m - 1] == c[..m - 1] && c[..m][m - 1] == [w[m - 1]];
      assert w[..m] == w[..m - 1] + [w[m - 1]];
    }
  }

  lemma StreamSingles(w: string, more: seq<string>, m: nat)
    requires '\0' !in w && m <= |w|
    ensures Stream((Singles(w) + more)[..m]) == w[..m]
  {
    FlattenSingles(w, more, m);
    StripPlain(w[..m]);
  }

  lemma {:induction false} RestPlain(w: string)
    requires '\n' !in w
    ensures Newline(w) == |w| && Rest(w) == w && Lines(w) == []
  {
    if w != "" {
      RestPlain(w[1..]);
    }
  }

  lemma SinglesFit(w: string, more: seq<string>, m: nat)
    requires '\0' !in w && '\n' !in w && |w| <= MAX_STRATUM_LINE_BYTES && m < |w|
    ensures FitsAt(Singles(w) + more, m)
  {
    var c := Singles(w) + more;
    StreamSingles(w, more, m);
    RestPlain(w[..m]);
    StripPlain([w[m]]);
    assert c[m] == [w[m]];
  }

  /** A line that nearly fills the buffer, and what follows it. */
  ghost predicate Tight(w: string, y: string) {
    && '\0' !in w && '\n' !in w && '\0' !in y && '\n' !in y && !Http(Trim(w)) && Trim(w) != ""
    && |w| < MAX_STRATUM_LINE_BYTES && |y| < READ_BYTES && |w| + 1 + |y| > MAX_STRATUM_LINE_BYTES
  }

  lemma TightAfter(w: string, y: string)
    requires Tight(w, y)
    ensures var x := w + "\n" + y; Rest(x) == y && BeforeHttp(Lines(x)) == [Trim(w)]
    ensures Lines(w + "\n") == [Trim(w)] && Rest(w + "\n") == ""
  {
    var z, x, line := w + "\n", w + "\n" + y, Trim(w);
    NewlineAfter(w);
    NewlineConcat(z, y);
    assert z[..|w|] == w && z[|w| + 1..] == "" && x[..|w|] == w && x[|w| + 1..] == y;
    EmptyLines();
    RestPlain(y);
    hide Http, Trim, Newline;
    FirstLine(x, line, y);
    assert Lines(z) == [line] + Lines("") by {
      assert NonEmpty(line) == [line];
    }
    assert BeforeHttp(Lines(y)) == [];
  }

  lemma FirstSingle(w: string, more: seq<string>)
    requires '\0' !in w && w != ""
    ensures !CutAfterSM(StripNuls((Singles(w) + more)[0]))
  {
    var c := (Singles(w) + more)[0];
    StripPlain(c);
    TrimShort(c);
  }

  lemma TrimShort(c: string)
    requires |c| == 1
    ensures Trim(c) != "SM"
  {
    assert TrimLeft(c[1..]) == "";
    TrimRightPrefix(TrimLeft(c));
  }

  lemma SeparateParts(w: string, y: string)
    ensures var n, a := |w|, Singles(w) + ["\n", y];
      && |a| == n + 2 && a[n] == "\n" && a[n + 1] == y
      && Flatten(a[..n]) == w && Flatten(a[..n + 1]) == w + "\n" && Flatten(a) == w + "\n" + y
  {
    var n, more := |w|, ["\n", y];
    var a := Singles(w) + more;
    FlattenSingles(w, more, n);
    assert w[..n] == w && a[n] == more[0] == "\n" && a[n + 1] == more[1] == y;
    assert a[..n + 1] == a[..n] + ["\n"] && a == a[..n + 1] + [y];
    FlattenStep(a[..n], "\n");
    FlattenStep(a[..n + 1], y);
  }

  lemma FlattenStep(c: seq<string>, x: string)
    ensures Flatten(c + [x]) == Flatten(c) + x
  {
    var d := c + [x];
    assert d[..|d| - 1] == c && d[|d| - 1] == x;
  }

  lemma SeparateReads(w: string, y: string)
    requires Tight(w, y)
    ensures var a := Singles(w) + ["\n", y];
      Flatten(a) == w + "\n" + y && Listened(a).dispatched == [Trim(w)]
  {
    var n, a := |w|, Singles(w) + ["\n", y];
    SeparateParts(w, y);
    TightAfter(w, y);
    SeparateFit(w, y);
    StripPlain(w + "\n" + y);
    FirstSingle(w, ["\n", y]);
    hide Trim, Http, Lines, BeforeHttp, CutAfterSM, Flatten, StripNuls, Singles, Fits, Tight;
    FittingExact(a);
  }

  lemma SeparateFit(w: string, y: string)
    requires Tight(w, y)
    ensures Fits(Singles(w) + ["\n", y])
  {
    var n, a := |w|, Singles(w) + ["\n", y];
    SeparateParts(w, y);
    hide Singles, Flatten;
    forall m | 0 <= m < |a| ensures FitsAt(a, m) {
      if m < n {
        SinglesFit(w, ["\n", y], m);
      } else if m == n {
        NewlineFits(w, a);
      } else {
        RestFits(w, y, a);
      }
    }
  }

  lemma NewlineFits(w: string, a: seq<string>)
    requires '\0' !in w && '\n' !in w && |w| < MAX_STRATUM_LINE_BYTES
    requires |w| < |a| && a[|w|] == "\n" && Flatten(a[..|w|]) == w
    ensures FitsAt(a, |w|)
  {
    hide Flatten;
    StripPlain(w);
    StripPlain("\n");
    RestPlain(w);
  }

  lemma RestFits(w: string, y: string, a: seq<string>)
    requires Tight(w, y) && |w| + 1 < |a| && a[|w| + 1] == y && Flatten(a[..|w| + 1]) == w + "\n"
    ensures FitsAt(a, |w| + 1)
  {
    TightAfter(w, y);
    assert '\0' !in w + "\n" && '\0' !in y && |y| < READ_BYTES;
    hide Flatten, Tight, Rest, StripNuls;
    StripPlain(w + "\n");
    StripPlain(y);
  }

  lemma JointParts(w: string, y: string)
    ensures var n, b := |w|, Singles(w) + ["\n" + y];
      |b| == n + 1 && b[n] == "\n" + y && Flatten(b[..n]) == w && Flatten(b) == w + "\n" + y
  {
    var n, more := |w|, ["\n" + y];
    var b := Singles(w) + more;
    FlattenSingles(w, more, n);
    assert w[..n] == w;
    assert b[..|b| - 1] == b[..n] && b[|b| - 1] == "\n" + y;
    assert w + ("\n" + y) == w + "\n" + y;
  }

  lemma JointOverruns(w: string, y: string, b: seq<string>)
    requires Tight(w, y) && |w| < |b| && b[|w|] == "\n" + y && Flatten(b[..|w|]) == w
    ensures !FitsAt(b, |w|)
  {
    assert '\0' !in w && '\n' !in w && '\0' !in "\n" + y && |w| + 1 + |y| > MAX_STRATUM_LINE_BYTES;
    hide Flatten, Tight, Rest, StripNuls;
    StripPlain(w);
    StripPlain("\n" + y);
    RestPlain(w);
  }

  lemma JointRead(w: string, y: string)
    requires Tight(w, y)
    ensures var b := Singles(w) + ["\n" + y];
      Flatten(b) == w + "\n" + y && Listened(b).dispatched == []
  {
    var n, b := |w|, Singles(w) + ["\n" + y];
    assert '\0' !in w && '\n' !in w && |w| < MAX_STRATUM_LINE_BYTES && w != "";
    JointParts(w, y);
    JointOverruns(w, y, b);
    FirstSingle(w, ["\n" + y]);
    forall m | 0 <= m < n ensures FitsAt(b, m) {
      SinglesFit(w, ["\n" + y], m);
    }
    hide Flatten, Tight, FitsAt, CutAfterSM, Singles, StripNuls;
    assert Used(b) == n;
    FramingExact(b);
    StripPlain(w);
    RestPlain(w);
    EmptyLines();
    assert Lines(w) == [];
  }

  /** The second exception: when the newline of such a line comes with what follows it, the buffer
      overruns and the line is lost; when the two come in separate reads it is dispatched. */
  lemma OverrunMatters(w: string, y: string)
    requires Tight(w, y)
    ensures var a, b := Singles(w) + ["\n", y], Singles(w) + ["\n" + y];
      && Flatten(a) == Flatten(b)
      && (forall m :: 0 <= m < |a| ==> |a[m]| <= READ_BYTES) && (forall m :: 0 <= m < |b| ==> |b[m]| <= READ_BYTES)
      && Listened(a).dispatched == [Trim(w)] && Listened(b).dispatched == []
  {
    SeparateReads(w, y);
    JointRead(w, y);
    hide Listened, Trim, Http, Flatten;
  }

  // ---------- Short lines ----------

  /** No stretch without a newline is longer than the buffer less one read. */
  ghost predicate ShortLines(x: string) {
    forall i, j :: 0 <= i <= j <= |x| && '\n' !in x[i..j] ==> j - i <= 65536 - 1024
  }

  lemma {:induction false} RestIsSuffix(x: string)
    ensures |Rest(x)| <= |x| && Rest(x) == x[|x| - |Rest(x)|..]
    decreases |x|
  {
    var p := Newline(x);
    if p < |x| {
      RestIsSuffix(x[p + 1..]);
    }
  }

  /** Lines that leave room for one read never overrun the buffer. */
  lemma ShortLinesFit(chunks: seq<string>)
    requires ShortLines(Stream(chunks)) && forall m :: 0 <= m < |chunks| ==> |chunks[m]| <= READ_BYTES
    ensures Fits(chunks)
  {
    var x := Stream(chunks);
    forall m | 0 <= m < |chunks| ensures FitsAt(chunks, m) {
      var y := Stream(chunks[..m]);
      StreamCut(chunks, m);
      RestIsSuffix(y);
      RestHasNoNewline(y);
      StripShrinks(chunks[m]);
      var i := |y| - |Rest(y)|;
      assert x[i..|y|] == Rest(y);
    }
  }

  /** So a client whose lines are short, and do not look like HTTP, is never disconnected. */
  lemma ShortLinesStayConnected(chunks: seq<string>)
    requires chunks != [] && ShortLines(Stream(chunks)) && forall m :: 0 <= m < |chunks| ==> |chunks[m]| <= READ_BYTES
    requires !CutAfterSM(StripNuls(chunks[0])) && !Doomed(Stream(chunks))
    ensures Listened(chunks).open && Listened(chunks).dispatched == Lines(Stream(chunks))
  {
    ShortLinesFit(chunks);
    ListenedExact(chunks);
  }
}
