/** The pipelined read loop of a server connection. */
module HttpConnection {
  import opened StreamBuffer
  import opened BufferIterator
  import opened HttpGrammar
  import opened HttpLanguage
  import opened HttpPrinter
  import opened HttpParser

  /** A connection: the requests handled so far and, while it is open, the unread input. */
  datatype Conn = Open(log: seq<Request>, input: seq<char>) | Closed(log: seq<Request>)

  /** What the read loop does with the input s. */
  function Drain(log: seq<Request>, s: seq<char>, past: char): (c: Conn)
    decreases |s|
  {
    match ParseRequest(s, past)
    case Ok(item) => Drain(log + [item.it], item.rest, past)
    case IncompleteInput => Open(log, s)
    case ErrorInRequest => Closed(log)
  }

  class ServerConnection {
    const input: Buffer
    var log: seq<Request>

    constructor ()
      ensures fresh(input) && input.Valid() && input.Normalized() && input.Contents() == [] && log == []
    {
      input := new Buffer();
      log := [];
    }

    /** readDone, with handleRequest appending to the log: each pass takes something from the
        buffer, and the loop computes Drain. */
    method ReadDone(past: char) returns (ok: bool)
      requires input.Valid() && input.Normalized()
      modifies this, input
      ensures input.Valid() && input.Normalized()
      ensures Drain(old(log), old(input.Contents()), past) == if ok then Open(log, input.Contents()) else Closed(log)
    {
      hide Buffer.Valid, Buffer.Normalized, Buffer.Contents, Iterator.Valid, Iterator.Rest, Iterator.Settled, ParseRequest;
      while true
        invariant input.Valid() && input.Normalized()
        invariant Drain(log, input.Contents(), past) == Drain(old(log), old(input.Contents()), past)
        decreases |input.Contents()|
      {
        var it := new Iterator(input);
        ghost var s := input.Contents();
        var rc, request := ParseRequestFrom(it, past);
        if rc < 0 {
          return false;
        } else if rc > 0 {
          return true;
        } else {
          it.Passed();
          input.Consume(it.bytesRead);
          log := log + [request];
        }
      }
    }

    /** One pass of doRead's loop that reads something: some of the available bytes, no more than
        the room of at least 1024 bytes that is offered, go into the buffer and the read loop runs. */
    method Receive(available: seq<char>, past: char) returns (n: nat, room: nat, ok: bool)
      requires input.Valid() && input.Normalized() && available != []
      modifies this, input
      ensures input.Valid() && input.Normalized() && 0 < n <= |available| && n <= room && 1024 <= room
      ensures Drain(old(log), old(input.Contents()) + available[..n], past) ==
              if ok then Open(log, input.Contents()) else Closed(log)
    {
      hide Buffer.Valid, Buffer.Contents, Drain;
      var roomy := input.Reserve(1024);
      room := input.WriteSize();
      n :| 0 < n <= |available| && n <= room;
      input.Fill(available[..n]);
      var moved := input.Advance(n);
      ok := ReadDone(past);
    }

    /** doRead over the bytes that come from the socket: whatever pieces they are read in, the
        connection does what Deliver says about these pieces. */
    method DoRead(stream: seq<char>) returns (ghost frags: seq<seq<char>>, ghost pasts: seq<char>, ok: bool)
      requires input.Valid() && input.Normalized() && input.Contents() == [] && log == []
      modifies this, input
      ensures input.Valid() && input.Normalized()
      ensures |frags| == |pasts| && (forall f :: f in frags ==> f != [])
      ensures Total(frags) <= stream && (ok ==> Total(frags) == stream)
      ensures Deliver(frags, pasts) == if ok then Open(log, input.Contents()) else Closed(log)
    {
      hide Buffer.Valid, Buffer.Normalized, Buffer.Contents, Drain;
      frags, pasts, ok := [], [], true;
      var done := 0;
      while done < |stream| && ok
        invariant input.Valid() && input.Normalized() && 0 <= done <= |stream|
        invariant |frags| == |pasts| && forall f :: f in frags ==> f != []
        invariant Total(frags) == stream[..done]
        invariant Deliver(frags, pasts) == if ok then Open(log, input.Contents()) else Closed(log)
      {
        var past: char := *;
        var n;
        ghost var f, p := frags, pasts;
        var room;
        n, room, ok := Receive(stream[done..], past);
        var piece := stream[done..][..n];
        frags, pasts := frags + [piece], pasts + [past];
        assert frags[..|f|] == f && pasts[..|f|] == p;
        assert stream[..done + n] == stream[..done] + piece;
        done := done + n;
      }
    }
  }

  // ---------- How the input is cut up ----------

  /** The input in the order it came. */
  function Total(frags: seq<seq<char>>): (s: seq<char>) {
    if frags == [] then [] else Total(frags[..|frags| - 1]) + frags[|frags| - 1]
  }

  /** The connection after receiving the fragments one by one; pasts are the bytes found behind
      the input at each time. A closed connection reads no more. */
  function Deliver(frags: seq<seq<char>>, pasts: seq<char>): (c: Conn)
    requires |pasts| == |frags|
  {
    if frags == [] then Open([], [])
    else
      var n := |frags| - 1;
      var c := Deliver(frags[..n], pasts[..n]);
      if c.Closed? then c else Drain(c.log, c.input + frags[n], pasts[n])
  }

  /** The outcome on s is not IncompleteInput and came from looking beyond the end. */
  predicate Misled(s: seq<char>, past: char) {
    Peeks(s) && !ParseRequest(s, past).IncompleteInput?
  }

  /** Draining s is never misled by the byte beyond its end. */
  predicate Settles(s: seq<char>, past: char)
    decreases |s|
  {
    && !Misled(s, past)
    && var p := ParseRequest(s, past);
    p.Ok? ==> Settles(p.value.rest, past)
  }

  /** Draining more input can be done in two steps. */
  lemma {:induction false} DrainMore(log: seq<Request>, s: seq<char>, x: seq<char>, past: char, past': char)
    requires Settles(s, past)
    ensures var c := Drain(log, s, past);
            Drain(log, s + x, past') == if c.Closed? then c else Drain(c.log, c.input + x, past')
    decreases |s|
  {
    hide ParseRequest, Peeks;
    FinalUnlessPeeking(s);
    var p := ParseRequest(s, past);
    assert p.IncompleteInput? || Stands(p, x, ParseRequest(s + x, past'));
    if p.Ok? {
      DrainMore(log + [p.value.it], p.value.rest, x, past, past');
    }
  }

  lemma {:induction false} SettlesWithoutCr(s: seq<char>, past: char)
    requires s == [] || s[|s| - 1] != '\r'
    ensures Settles(s, past)
    decreases |s|
  {
    hide ParseRequest, Peeks;
    FinalUnlessPeeking(s);
    var p := ParseRequest(s, past);
    if p.Ok? {
      SettlesWithoutCr(p.value.rest, past);
    }
  }

  /** If the input settles wherever it is cut, the cuts make no difference: the connection ends as
      if everything had come at once. */
  lemma {:induction false} CutsDoNotMatter(frags: seq<seq<char>>, pasts: seq<char>)
    requires |pasts| == |frags| > 0
    requires forall i :: 0 < i < |frags| ==> Settles(Total(frags[..i]), pasts[i - 1])
    ensures Deliver(frags, pasts) == Drain([], Total(frags), pasts[|pasts| - 1])
  {
    hide Drain, Settles;
    var n := |frags| - 1;
    var front, frontPasts := frags[..n], pasts[..n];
    if n == 0 {
      assert front == [];
    } else {
      forall i | 0 < i < n
        ensures Settles(Total(front[..i]), frontPasts[i - 1])
      {
        assert front[..i] == frags[..i];
      }
      CutsDoNotMatter(front, frontPasts);
      DrainMore([], Total(front), frags[n], pasts[n - 1], pasts[n]);
    }
  }

  // ---------- Messages back to back ----------

  predicate AllGood(ms: seq<Message>) {
    forall i :: 0 <= i < |ms| ==> Good(ms[i])
  }

  function TextAll(ms: seq<Message>): (s: seq<char>) {
    if ms == [] then [] else Text(ms[0]) + TextAll(ms[1..])
  }

  function Requests(ms: seq<Message>): (l: seq<Request>)
    ensures |l| == |ms| && forall i :: 0 <= i < |ms| ==> l[i] == ms[i].request
  {
    if ms == [] then [] else [ms[0].request] + Requests(ms[1..])
  }

  /** A cut after n bytes is in one of the messages, at a place that misleads the parser when it finds
      past behind it. */
  predicate BadCut(ms: seq<Message>, n: nat, past: char) {
    ms != [] &&
    var k := |Text(ms[0])|;
    if n < k then Misleads(ms[0], n, past) else BadCut(ms[1..], n - k, past)
  }

  /** How many messages end before or just after a cut. */
  function CutMessages(ms: seq<Message>, n: nat): (j: nat)
    ensures j <= |ms|
  {
    if ms == [] then 0
    else
      var k := |Text(ms[0])|;
      if n < k then 1 else 1 + CutMessages(ms[1..], n - k)
  }

  lemma DrainFirst(log: seq<Request>, m: Message, x: seq<char>, past: char)
    requires Good(m)
    ensures Drain(log, Text(m) + x, past) == Drain(log + [m.request], x, past)
    ensures Settles(Text(m) + x, past) <==> Settles(x, past)
  {
    hide ParseRequest, Peeks, Text;
    MessageReads(m, x, past);
  }

  lemma DrainCut(log: seq<Request>, m: Message, n: nat, past: char)
    requires Good(m) && n < |Text(m)|
    ensures var s := Text(m)[..n];
            && (Settles(s, past) <==> !Misleads(m, n, past))
            && Drain(log, s, past) ==
                 if !Misleads(m, n, past) then Open(log, s)
                 else if n + 1 == |Text(m)| && past == '\n' then Open(log + [m.request], []) else Closed(log)
  {
    hide ParseRequest, Peeks, Text;
    CutShort(m, n, past);
    assert ParseRequest([], past).IncompleteInput? by { Nothing(past); }
  }

  lemma Nothing(past: char)
    ensures ParseRequest([], past).IncompleteInput?
  {
  }

  /** Draining the first n bytes of the messages settles unless the cut is bad. */
  lemma {:induction false} SettlesSent(ms: seq<Message>, n: nat, past: char)
    requires AllGood(ms) && n <= |TextAll(ms)|
    ensures Settles(TextAll(ms)[..n], past) <==> !BadCut(ms, n, past)
    decreases |ms|
  {
    hide Text, Settles, Good, Misleads;
    if ms == [] {
      SettlesWithoutCr([], past);
    } else {
      var k := |Text(ms[0])|;
      SplitAt(Text(ms[0]), TextAll(ms[1..]), n);
      if n < k {
        DrainCut([], ms[0], n, past);
      } else {
        DrainFirst([], ms[0], TextAll(ms[1..])[..n - k], past);
        SettlesSent(ms[1..], n - k, past);
      }
    }
  }

  lemma {:induction false} DrainSent(log: seq<Request>, ms: seq<Message>, x: seq<char>, past: char)
    requires AllGood(ms)
    ensures Drain(log, TextAll(ms) + x, past) == Drain(log + Requests(ms), x, past)
    ensures Settles(TextAll(ms) + x, past) <==> Settles(x, past)
    decreases |ms|
  {
    hide Text, Drain, Good, Settles;
    if ms == [] {
      assert TextAll(ms) + x == x && log + Requests(ms) == log;
    } else {
      var more := TextAll(ms[1..]) + x;
      assert TextAll(ms) + x == Text(ms[0]) + more;
      DrainFirst(log, ms[0], more, past);
      DrainSent(log + [ms[0].request], ms[1..], x, past);
      assert log + [ms[0].request] + Requests(ms[1..]) == log + Requests(ms);
    }
  }

  lemma DrainAll(log: seq<Request>, ms: seq<Message>, past: char)
    requires AllGood(ms)
    ensures Drain(log, TextAll(ms), past) == Open(log + Requests(ms), [])
  {
    hide AllGood, Drain;
    DrainSent(log, ms, [], past);
    assert TextAll(ms) + [] == TextAll(ms);
    DrainNothing(log + Requests(ms), past);
  }

  lemma DrainNothing(log: seq<Request>, past: char)
    ensures Drain(log, [], past) == Open(log, [])
  {
  }

  /** The connection is closed, or the requests up to the cut after n bytes are logged and a line feed
      is still to come. */
  predicate CutOff(c: Conn, log: seq<Request>, ms: seq<Message>, n: nat)
    requires n <= |TextAll(ms)|
  {
    var j := CutMessages(ms, n);
    c.Closed? || (c == Open(log + Requests(ms)[..j], []) && TextAll(ms)[n..] == "\n" + TextAll(ms[j..]))
  }

  /** At a bad cut the request is taken for complete too early or the connection is closed. */
  lemma {:induction false} DrainBadCut(log: seq<Request>, ms: seq<Message>, n: nat, past: char)
    requires AllGood(ms) && BadCut(ms, n, past) && n < |TextAll(ms)|
    ensures CutOff(Drain(log, TextAll(ms)[..n], past), log, ms, n)
    decreases |ms|
  {
    hide Text, Drain, Good, Misleads, CutOff;
    var k, more := |Text(ms[0])|, TextAll(ms[1..]);
    SplitAt(Text(ms[0]), more, n);
    if n < k {
      CutOffFirst(log, ms, n, past);
    } else {
      BadCutInside(ms[1..], n - k, past);
      DrainBadCut(log + [ms[0].request], ms[1..], n - k, past);
      DrainFirst(log, ms[0], more[..n - k], past);
      CutOffLater(Drain(log, TextAll(ms)[..n], past), log, ms, n);
    }
  }

  lemma CutOffFirst(log: seq<Request>, ms: seq<Message>, n: nat, past: char)
    requires ms != [] && Good(ms[0]) && n < |Text(ms[0])| && Misleads(ms[0], n, past)
    ensures n <= |TextAll(ms)| && CutOff(Drain(log, Text(ms[0])[..n], past), log, ms, n)
  {
    hide Text, Drain, Good, Misleads;
    DrainCut(log, ms[0], n, past);
    EndsInLineFeed(ms[0]);
    SplitAt(Text(ms[0]), TextAll(ms[1..]), n);
    assert CutMessages(ms, n) == 1;
    assert Requests(ms)[..1] == [ms[0].request];
  }

  lemma CutOffLater(c: Conn, log: seq<Request>, ms: seq<Message>, n: nat)
    requires ms != [] && |Text(ms[0])| <= n <= |TextAll(ms)|
    requires CutOff(c, log + [ms[0].request], ms[1..], n - |Text(ms[0])|)
    ensures CutOff(c, log, ms, n)
  {
    hide Text;
    SplitAt(Text(ms[0]), TextAll(ms[1..]), n);
    RequestFirst(log, ms, CutMessages(ms[1..], n - |Text(ms[0])|));
  }

  lemma RequestFirst(log: seq<Request>, ms: seq<Message>, j: nat)
    requires ms != [] && j <= |ms| - 1
    ensures log + [ms[0].request] + Requests(ms[1..])[..j] == log + Requests(ms)[..1 + j]
    ensures ms[1..][j..] == ms[1 + j..]
  {
    TakeFirst(log, ms[0].request, Requests(ms[1..]), j);
  }

  lemma TakeFirst(log: seq<Request>, x: Request, l: seq<Request>, j: nat)
    requires j <= |l|
    ensures log + [x] + l[..j] == log + ([x] + l)[..1 + j]
  {
  }

  lemma {:induction false} BadCutInside(ms: seq<Message>, n: nat, past: char)
    requires BadCut(ms, n, past)
    ensures n < |TextAll(ms)|
  {
    hide Text, Misleads;
    if n >= |Text(ms[0])| {
      BadCutInside(ms[1..], n - |Text(ms[0])|, past);
    }
  }

  lemma SplitAt(a: seq<char>, b: seq<char>, n: nat)
    requires n <= |a| + |b|
    ensures (a + b)[..n] == if n < |a| then a[..n] else a + b[..n - |a|]
    ensures (a + b)[n..] == if n < |a| then a[n..] + b else b[n - |a|..]
  {
  }

  lemma EndsInLineFeed(m: Message)
    ensures |Text(m)| >= 2 && Text(m)[|Text(m)| - 1..] == "\n"
  {
  }

  // ---------- After a bad cut ----------

  lemma {:induction false} DrainExtends(log: seq<Request>, s: seq<char>, past: char)
    ensures var c := Drain(log, s, past); |log| <= |c.log| && c.log[..|log|] == log
    decreases |s|
  {
    hide ParseRequest;
    var p := ParseRequest(s, past);
    if p.Ok? {
      DrainExtends(log + [p.value.it], p.value.rest, past);
    }
  }

  /** A line feed in front of a request becomes part of its method. */
  lemma StrayLineFeed(s: seq<char>, tail: seq<Message>, past: char)
    requires AllGood(tail) && s <= "\n" + TextAll(tail) && ParseRequest(s, past).Ok?
    ensures tail != [] && ParseRequest(s, past).value.it.verb == "\n" + tail[0].request.verb
  {
    hide RequestLine, SkipHeaders, ParseWord, Text;
    var stream := "\n" + TextAll(tail);
    var x := stream[|s|..];
    assert s + x == stream;
    WordStands(s, x);
    FirstWord(s);
    if tail == [] {
      assert stream == "\n";
      NoWord();
    } else {
      SentWord(tail[0], TextAll(tail[1..]));
      assert stream == "\n" + Text(tail[0]) + TextAll(tail[1..]);
    }
  }

  lemma FirstWord(s: seq<char>)
    ensures RequestLine(s).Ok? ==> ParseWord(s).Ok? && RequestLine(s).value.it.verb == ParseWord(s).value.it
  {
    hide ParseWord, SkipChar, SkipNewLine;
  }

  lemma NoWord()
    ensures ParseWord("\n").IncompleteInput?
  {
  }

  lemma SentWord(m: Message, x: seq<char>)
    requires Good(m)
    ensures var p := ParseWord("\n" + Text(m) + x); p.Ok? && p.value.it == "\n" + m.request.verb
  {
    hide ParseWord, Lines, Headers;
    var r := m.request;
    var y := "/" + r.address + " " + r.version + "\r\n" + Lines(m.headers) + "\r\n" + x;
    assert "\n" + Text(m) + x == ("\n" + r.verb) + ([' '] + y);
    WordReads("\n" + r.verb, ' ', y);
  }

  /** The connection can no longer end with base and the rest of the requests as its log and
      nothing left: it is closed, still has the stray line feed in front of it, or has logged a
      wrong request. */
  predicate Lost(c: Conn, base: seq<Request>, tail: seq<Message>, q: seq<char>)
    requires AllGood(tail)
  {
    || c.Closed?
    || c == Open(base, q)
    || (|c.log| > |base| && (tail == [] || c.log[|base|] != tail[0].request))
  }

  lemma StaysLost(c: Conn, base: seq<Request>, tail: seq<Message>, q: seq<char>, f: seq<char>, past: char)
    requires AllGood(tail) && Lost(c, base, tail, q) && c.Open? && q + f <= "\n" + TextAll(tail)
    ensures Lost(Drain(c.log, c.input + f, past), base, tail, q + f)
  {
    hide ParseRequest, Good;
    DrainExtends(c.log, c.input + f, past);
    var c' := Drain(c.log, c.input + f, past);
    if c == Open(base, q) {
      var p := ParseRequest(q + f, past);
      if p.Ok? {
        StrayLineFeed(q + f, tail, past);
        DrainExtends(base + [p.value.it], p.value.rest, past);
        assert c'.log[|base|] == (base + [p.value.it])[|base|];
      }
    } else {
      assert c'.log[|base|] == c.log[|base|];
    }
  }

  lemma {:induction false} TotalPrefix(frags: seq<seq<char>>, i: nat)
    requires i <= |frags|
    ensures Total(frags[..i]) <= Total(frags)
    decreases |frags|
  {
    if i == |frags| {
      assert frags[..i] == frags;
    } else {
      var front := frags[..|frags| - 1];
      assert front[..i] == frags[..i];
      TotalPrefix(front, i);
    }
  }

  lemma {:induction false} LostForever(frags: seq<seq<char>>, pasts: seq<char>, i: nat, k: nat,
                                       base: seq<Request>, tail: seq<Message>)
    requires |pasts| == |frags| && i <= k <= |frags| && AllGood(tail)
    requires Lost(Deliver(frags[..i], pasts[..i]), base, tail, [])
    requires Total(frags) == Total(frags[..i]) + ("\n" + TextAll(tail))
    ensures |Total(frags[..i])| <= |Total(frags[..k])|
    ensures Lost(Deliver(frags[..k], pasts[..k]), base, tail, Total(frags[..k])[|Total(frags[..i])|..])
    decreases k
  {
    hide Drain, Lost, TextAll, AllGood;
    if k > i {
      LostForever(frags, pasts, i, k - 1, base, tail);
      var c := Deliver(frags[..k - 1], pasts[..k - 1]);
      var q := Total(frags[..k - 1])[|Total(frags[..i])|..];
      assert frags[..k][..k - 1] == frags[..k - 1] && pasts[..k][..k - 1] == pasts[..k - 1];
      TotalPrefix(frags, k);
      assert q + frags[k - 1] == Total(frags[..k])[|Total(frags[..i])|..];
      if c.Open? {
        StaysLost(c, base, tail, q, frags[k - 1], pasts[k - 1]);
      } else {
        ClosedIsLost(c, base, tail, q + frags[k - 1]);
      }
    } else {
      assert Total(frags[..k])[|Total(frags[..i])|..] == [];
    }
  }

  lemma EmptyIsLost(base: seq<Request>, tail: seq<Message>)
    requires AllGood(tail)
    ensures Lost(Open(base, []), base, tail, [])
  {
  }

  lemma ClosedIsLost(c: Conn, base: seq<Request>, tail: seq<Message>, q: seq<char>)
    requires AllGood(tail) && c.Closed?
    ensures Lost(c, base, tail, q)
  {
  }

  /** The i-th fragment ends at a bad place. */
  predicate BadAt(ms: seq<Message>, frags: seq<seq<char>>, pasts: seq<char>, i: nat)
    requires 0 < i <= |frags| == |pasts|
  {
    BadCut(ms, |Total(frags[..i])|, pasts[i - 1])
  }

  /** No fragment but the last ends at a bad place. */
  predicate GoodCuts(ms: seq<Message>, frags: seq<seq<char>>, pasts: seq<char>)
    requires |frags| == |pasts|
  {
    forall i :: 0 < i < |frags| ==> !BadAt(ms, frags, pasts, i)
  }

  lemma GoodCutsSettle(ms: seq<Message>, frags: seq<seq<char>>, pasts: seq<char>, i: nat)
    requires AllGood(ms) && Total(frags) <= TextAll(ms) && 0 < i <= |frags| == |pasts|
    ensures |Total(frags[..i])| <= |TextAll(ms)| && TextAll(ms)[..|Total(frags[..i])|] == Total(frags[..i])
    ensures Settles(Total(frags[..i]), pasts[i - 1]) <==> !BadAt(ms, frags, pasts, i)
  {
    hide Settles, BadCut, AllGood, TextAll;
    TotalPrefix(frags, i);
    SettlesSent(ms, |Total(frags[..i])|, pasts[i - 1]);
  }

  lemma {:induction false} FirstBadCut(ms: seq<Message>, frags: seq<seq<char>>, pasts: seq<char>, k: nat) returns (i: nat)
    requires 0 < k < |frags| == |pasts| && BadAt(ms, frags, pasts, k)
    ensures 0 < i < |frags| && BadAt(ms, frags, pasts, i)
    ensures forall m :: 0 < m < i ==> !BadAt(ms, frags, pasts, m)
    decreases k
  {
    hide BadAt;
    if m :| 0 < m < k && BadAt(ms, frags, pasts, m) {
      i := FirstBadCut(ms, frags, pasts, m);
    } else {
      i := k;
    }
  }

  lemma BadCutLoses(ms: seq<Message>, frags: seq<seq<char>>, pasts: seq<char>, i: nat)
    requires AllGood(ms) && Total(frags) == TextAll(ms) && |pasts| == |frags|
    requires 0 < i < |frags| && BadAt(ms, frags, pasts, i)
    requires forall m :: 0 < m < i ==> !BadAt(ms, frags, pasts, m)
    ensures Deliver(frags, pasts) != Open(Requests(ms), [])
  {
    hide Drain, Settles, BadCut, TextAll, CutMessages, Deliver, Total, AllGood, Lost, Requests, CutOff;
    forall m | 0 < m < i
      ensures Settles(Total(frags[..i][..m]), pasts[..i][m - 1])
    {
      assert frags[..i][..m] == frags[..m];
      GoodCutsSettle(ms, frags, pasts, m);
    }
    CutsDoNotMatter(frags[..i], pasts[..i]);
    GoodCutsSettle(ms, frags, pasts, i);
    var n := |Total(frags[..i])|;
    BadCutInside(ms, n, pasts[i - 1]);
    DrainBadCut([], ms, n, pasts[..i][i - 1]);
    CutOffLoses(ms, frags, pasts, i);
  }

  lemma CutOffLoses(ms: seq<Message>, frags: seq<seq<char>>, pasts: seq<char>, i: nat)
    requires AllGood(ms) && Total(frags) == TextAll(ms) && |pasts| == |frags| && i <= |frags|
    requires |Total(frags[..i])| < |TextAll(ms)| && TextAll(ms)[..|Total(frags[..i])|] == Total(frags[..i])
    requires CutOff(Deliver(frags[..i], pasts[..i]), [], ms, |Total(frags[..i])|)
    ensures Deliver(frags, pasts) != Open(Requests(ms), [])
  {
    hide Drain, Settles, BadCut, TextAll, CutMessages, Deliver, Total, Good, Lost, Requests;
    var n := |Total(frags[..i])|;
    var j := CutMessages(ms, n);
    var base, tail := Requests(ms)[..j], ms[j..];
    if Deliver(frags[..i], pasts[..i]).Closed? {
      StaysClosed(frags, pasts, i);
    } else {
      assert [] + base == base;
      EmptyIsLost(base, tail);
      LostForever(frags, pasts, i, |frags|, base, tail);
      assert frags[..|frags|] == frags && pasts[..|frags|] == pasts;
      LostIsWrong(Deliver(frags, pasts), ms, j, TextAll(ms)[n..]);
    }
  }

  lemma LostIsWrong(c: Conn, ms: seq<Message>, j: nat, q: seq<char>)
    requires AllGood(ms) && j <= |ms| && q != [] && Lost(c, Requests(ms)[..j], ms[j..], q)
    ensures c != Open(Requests(ms), [])
  {
  }

  lemma {:induction false} StaysClosed(frags: seq<seq<char>>, pasts: seq<char>, i: nat)
    requires |pasts| == |frags| && i <= |frags| && Deliver(frags[..i], pasts[..i]).Closed?
    ensures Deliver(frags, pasts).Closed?
  {
    hide Drain;
    if i == |frags| {
      assert frags[..i] == frags && pasts[..i] == pasts;
    } else {
      var n := |frags| - 1;
      assert frags[..n][..i] == frags[..i] && pasts[..n][..i] == pasts[..i];
      StaysClosed(frags[..n], pasts[..n], i);
    }
  }

  /** Messages sent back to back and received in any fragments are handled as exactly their requests,
      in order and with nothing left over, if and only if no fragment but the last ends at a bad
      place: right behind the last CR of a message, or behind the CR of one of its header lines when
      the byte found there is not LF. */
  lemma Pipelined(ms: seq<Message>, frags: seq<seq<char>>, pasts: seq<char>)
    requires AllGood(ms) && Total(frags) == TextAll(ms) && |pasts| == |frags|
    ensures Deliver(frags, pasts) == Open(Requests(ms), []) <==> GoodCuts(ms, frags, pasts)
  {
    hide Drain, Settles, BadAt, Good;
    if k :| 0 < k < |frags| && BadAt(ms, frags, pasts, k) {
      var i := FirstBadCut(ms, frags, pasts, k);
      BadCutLoses(ms, frags, pasts, i);
    } else if frags == [] {
      NothingSent(ms);
    } else {
      forall i | 0 < i < |frags|
        ensures Settles(Total(frags[..i]), pasts[i - 1])
      {
        GoodCutsSettle(ms, frags, pasts, i);
      }
      CutsDoNotMatter(frags, pasts);
      DrainAll([], ms, pasts[|pasts| - 1]);
      assert [] + Requests(ms) == Requests(ms);
    }
  }

  lemma NothingSent(ms: seq<Message>)
    ensures TextAll(ms) == [] <==> ms == []
  {
  }

  lemma EndOfTotal(frags: seq<seq<char>>, i: nat)
    requires 0 < i <= |frags| && forall f :: f in frags ==> f != [] && f[|f| - 1] != '\r'
    ensures Total(frags[..i]) != [] && Total(frags[..i])[|Total(frags[..i])| - 1] != '\r'
  {
    assert frags[..i][i - 1] == frags[i - 1] && frags[i - 1] in frags;
  }

  /** In particular this holds if no fragment ends in CR. */
  lemma PipelinedWithoutCr(ms: seq<Message>, frags: seq<seq<char>>, pasts: seq<char>)
    requires AllGood(ms) && Total(frags) == TextAll(ms) && |pasts| == |frags|
    requires forall f :: f in frags ==> f != [] && f[|f| - 1] != '\r'
    ensures Deliver(frags, pasts) == Open(Requests(ms), [])
  {
    hide Drain, Settles, BadAt, Good, Total;
    forall i | 0 < i < |frags|
      ensures !BadAt(ms, frags, pasts, i)
    {
      EndOfTotal(frags, i);
      SettlesWithoutCr(Total(frags[..i]), pasts[i - 1]);
      GoodCutsSettle(ms, frags, pasts, i);
    }
    Pipelined(ms, frags, pasts);
  }

  // ---------- Any input ----------

  /** What any input holds: messages, and then something that is not one. The requests of the
      messages are logged; the rest is kept if it is incomplete, and if not the connection is
      closed. */
  lemma {:induction false} DrainReads(log: seq<Request>, s: seq<char>, past: char)
    returns (ms: seq<Message>, rest: seq<char>)
    requires Settles(s, past)
    ensures AllGood(ms) && s == TextAll(ms) + rest && !ParseRequest(rest, past).Ok?
    ensures Drain(log, s, past) ==
            if ParseRequest(rest, past).IncompleteInput? then Open(log + Requests(ms), rest) else Closed(log + Requests(ms))
    decreases |s|
  {
    hide ParseRequest, Peeks, Text, Good;
    var p := ParseRequest(s, past);
    if p.Ok? {
      var m := FirstMessage(s, past);
      var more;
      more, rest := DrainReads(log + [m.request], p.value.rest, past);
      ms := [m] + more;
      assert ms[1..] == more;
      assert s == TextAll(ms) + rest;
      assert log + [m.request] + Requests(more) == log + Requests(ms);
    } else {
      ms, rest := [], s;
      assert log + Requests([]) == log && TextAll([]) + s == s;
    }
  }

  lemma FirstMessage(s: seq<char>, past: char) returns (m: Message)
    requires ParseRequest(s, past).Ok? && !Peeks(s)
    ensures Good(m) && m.request == ParseRequest(s, past).value.it && s == Text(m) + ParseRequest(s, past).value.rest
  {
    hide ParseRequest, Peeks, Text, Good;
    var hs := MessageParsed(s, past);
    m := Message(ParseRequest(s, past).value.it, hs);
    if s + "\n" == Text(m) {
      EndsInLineFeed(m);
      assert s == Text(m)[..|s|];
      LastCrPeeks(m, |s|);
    }
  }

  lemma LastCrPeeks(m: Message, n: nat)
    requires Good(m) && n + 1 == |Text(m)|
    ensures Peeks(Text(m)[..n])
  {
    hide Peeks, Text, Good;
    CutShort(m, n, '\n');
  }

  /** Messages, and then something that can never become one: however it is received, if no fragment
      ends in CR the requests of the messages are handled and the connection is closed. */
  lemma GarbageCloses(ms: seq<Message>, g: seq<char>, frags: seq<seq<char>>, pasts: seq<char>)
    requires AllGood(ms) && Total(frags) == TextAll(ms) + g && |pasts| == |frags| > 0
    requires forall f :: f in frags ==> f != [] && f[|f| - 1] != '\r'
    requires ParseRequest(g, pasts[|pasts| - 1]).ErrorInRequest?
    ensures Deliver(frags, pasts) == Closed(Requests(ms))
  {
    hide Settles, Good, Total, ParseRequest;
    forall i | 0 < i < |frags|
      ensures Settles(Total(frags[..i]), pasts[i - 1])
    {
      EndOfTotal(frags, i);
      SettlesWithoutCr(Total(frags[..i]), pasts[i - 1]);
    }
    CutsDoNotMatter(frags, pasts);
    DrainSent([], ms, g, pasts[|pasts| - 1]);
    assert [] + Requests(ms) == Requests(ms);
  }

  // ---------- The connection serves messages ----------

  /** A good cut never closes the connection. */
  lemma {:induction false} DrainGoodCut(log: seq<Request>, ms: seq<Message>, n: nat, past: char)
    requires AllGood(ms) && n <= |TextAll(ms)| && !BadCut(ms, n, past)
    ensures Drain(log, TextAll(ms)[..n], past).Open?
    decreases |ms|
  {
    hide Text, Drain, Good, Misleads;
    if ms == [] {
      DrainNothing(log, past);
    } else {
      var k, more := |Text(ms[0])|, TextAll(ms[1..]);
      SplitAt(Text(ms[0]), more, n);
      if n < k {
        DrainCut(log, ms[0], n, past);
      } else {
        DrainFirst(log, ms[0], more[..n - k], past);
        DrainGoodCut(log + [ms[0].request], ms[1..], n - k, past);
      }
    }
  }

  /** No piece that was read ends at a bad place. */
  predicate GoodPieces(ms: seq<Message>, frags: seq<seq<char>>, pasts: seq<char>)
    requires |frags| == |pasts|
  {
    forall i :: 0 < i <= |frags| ==> !BadAt(ms, frags, pasts, i)
  }

  /** Pipelined, for a connection that reads on until it is closed or has everything. */
  lemma PipelinedPieces(ms: seq<Message>, frags: seq<seq<char>>, pasts: seq<char>)
    requires AllGood(ms) && |pasts| == |frags| && Total(frags) <= TextAll(ms)
    requires Deliver(frags, pasts).Open? ==> Total(frags) == TextAll(ms)
    ensures Deliver(frags, pasts) == Open(Requests(ms), []) <==> GoodPieces(ms, frags, pasts)
  {
    hide Drain, Settles, BadCut, Good, TextAll, Deliver, Total, Requests;
    assert frags[..|frags|] == frags;
    if Total(frags) == TextAll(ms) {
      Pipelined(ms, frags, pasts);
      if frags != [] && BadCut(ms, |Total(frags)|, pasts[|frags| - 1]) {
        BadCutInside(ms, |Total(frags)|, pasts[|frags| - 1]);
      }
      assert GoodPieces(ms, frags, pasts) <==> GoodCuts(ms, frags, pasts);
    } else if GoodPieces(ms, frags, pasts) {
      GoodStaysOpen(ms, frags, pasts);
    }
  }

  lemma GoodStaysOpen(ms: seq<Message>, frags: seq<seq<char>>, pasts: seq<char>)
    requires AllGood(ms) && |pasts| == |frags| && Total(frags) <= TextAll(ms) && GoodPieces(ms, frags, pasts)
    ensures Deliver(frags, pasts).Open?
  {
    hide Drain, Settles, BadCut, AllGood, TextAll, Total;
    if frags != [] {
      forall i | 0 < i < |frags|
        ensures Settles(Total(frags[..i]), pasts[i - 1])
      {
        GoodCutsSettle(ms, frags, pasts, i);
      }
      CutsDoNotMatter(frags, pasts);
      assert frags[..|frags|] == frags;
      GoodCutsSettle(ms, frags, pasts, |frags|);
      assert !BadAt(ms, frags, pasts, |frags|);
      DrainGoodCut([], ms, |Total(frags)|, pasts[|pasts| - 1]);
    }
  }

  /** A new connection that is sent messages handles exactly their requests and waits for more, if
      and only if no piece that it read ended at a bad place. */
  method Serve(ms: seq<Message>)
    returns (conn: ServerConnection, ok: bool, ghost frags: seq<seq<char>>, ghost pasts: seq<char>)
    requires AllGood(ms)
    ensures conn.input.Valid() && |frags| == |pasts| && (ok ==> Total(frags) == TextAll(ms))
    ensures ok && conn.log == Requests(ms) && conn.input.Contents() == [] <==> GoodPieces(ms, frags, pasts)
  {
    hide Buffer.Valid, Buffer.Normalized, Buffer.Contents, Deliver, Total, TextAll, Requests, GoodPieces;
    conn := new ServerConnection();
    frags, pasts, ok := conn.DoRead(TextAll(ms));
    PipelinedPieces(ms, frags, pasts);
  }

  // ---------- Printed requests ----------

  function PrintAll(rs: seq<Request>): (s: seq<char>) {
    if rs == [] then [] else Print(rs[0]) + PrintAll(rs[1..])
  }

  predicate AllClean(rs: seq<Request>) {
    forall i :: 0 <= i < |rs| ==> Clean(rs[i])
  }

  /** The printed requests as messages. */
  function Sent(rs: seq<Request>): (ms: seq<Message>)
    requires AllClean(rs)
    ensures |ms| == |rs| && forall i :: 0 <= i < |rs| ==> ms[i] == Message(Shown(rs[i]), [])
  {
    if rs == [] then [] else [Message(Shown(rs[0]), [])] + Sent(rs[1..])
  }

  /** A cut after n bytes separates the last two bytes of one of the requests, which are CR and
      LF. */
  predicate SplitsEnd(rs: seq<Request>, n: nat) {
    rs != [] &&
    var k := |Print(rs[0])|;
    n + 1 == k || (n >= k && SplitsEnd(rs[1..], n - k))
  }

  lemma {:induction false} SentIsPrinted(rs: seq<Request>, n: nat, past: char)
    requires AllClean(rs)
    ensures AllGood(Sent(rs)) && TextAll(Sent(rs)) == PrintAll(rs)
    ensures BadCut(Sent(rs), n, past) <==> SplitsEnd(rs, n)
    decreases |rs|
  {
    hide Print, Text, Good, Clean, Shown, Misleads;
    if rs != [] {
      var m := Message(Shown(rs[0]), []);
      PrintIsText(rs[0]);
      MisleadsPrinted(m, n, past);
      assert Sent(rs)[1..] == Sent(rs[1..]);
      SentIsPrinted(rs[1..], if n < |Print(rs[0])| then 0 else n - |Print(rs[0])|, past);
      assert forall i :: 0 < i < |rs| ==> Sent(rs)[i] == Sent(rs[1..])[i - 1];
    }
  }

  lemma MisleadsPrinted(m: Message, n: nat, past: char)
    requires m.headers == []
    ensures Misleads(m, n, past) <==> n + 1 == |Text(m)|
  {
  }

  /** Requests printed back to back are handled as exactly that list if and only if no fragment but
      the last ends between the last CR and LF of a request. */
  lemma PipelinedPrinted(rs: seq<Request>, frags: seq<seq<char>>, pasts: seq<char>)
    requires AllClean(rs) && Total(frags) == PrintAll(rs) && |pasts| == |frags|
    ensures var c := Deliver(frags, pasts);
            && c.log == Requests(Sent(rs)) && c.Open? && c.input == [] <==>
               forall i :: 0 < i < |frags| ==> !SplitsEnd(rs, |Total(frags[..i])|)
  {
    hide Deliver, PrintAll, AllClean, SplitsEnd, BadCut, Sent, Requests;
    SentIsPrinted(rs, 0, '\n');
    Pipelined(Sent(rs), frags, pasts);
    forall i | 0 < i < |frags|
      ensures BadAt(Sent(rs), frags, pasts, i) <==> SplitsEnd(rs, |Total(frags[..i])|)
    {
      SentIsPrinted(rs, |Total(frags[..i])|, pasts[i - 1]);
    }
  }
}
