/** The language of requests, stated without the parser, and what the parser makes of every input
    in its terms. */
module HttpLanguage {
  import opened HttpGrammar

  // ---------- The request line ----------

  predicate IsWord(w: string) {
    ' ' !in w && '\r' !in w
  }

  predicate Words(r: Request) {
    IsWord(r.verb) && IsWord(r.address) && IsWord(r.version)
  }

  /** A request line up to its line end; the slash is not part of the reported address. */
  function LineStart(r: Request): (s: seq<char>) {
    r.verb + " /" + r.address + " " + r.version
  }

  function LineText(r: Request): (s: seq<char>) {
    LineStart(r) + "\r\n"
  }

  lemma WordReads(w: string, c: char, x: seq<char>)
    requires IsWord(w) && c in WORD_END
    ensures ParseWord(w + ([c] + x)) == Ok(Item(w, [c] + x))
  {
    var s := w + ([c] + x);
    FindIs(s, WORD_END, |w|);
    assert s[..|w|] == w && s[|w|..] == [c] + x;
  }

  lemma WordIs(s: seq<char>)
    ensures var p := ParseWord(s);
            && (p.IncompleteInput? <==> IsWord(s)) && !p.ErrorInRequest?
            && (p.Ok? ==>
                  var w, rest := p.value.it, p.value.rest;
                  IsWord(w) && s == w + rest && rest != [] && rest[0] in WORD_END)
  {
    var k := Find(s, WORD_END);
    if k == |s| {
      assert forall i :: 0 <= i < |s| ==> s[i] != ' ' && s[i] != '\r';
    } else {
      assert s[k] in s;
    }
  }

  lemma SkipOne(c: char, x: seq<char>)
    ensures SkipChar([c] + x, c) == Ok(Item((), x))
  {
  }

  lemma SkipNewLineOne(x: seq<char>)
    ensures SkipNewLine("\r\n" + x) == Ok(Item((), x))
  {
  }

  /** After the words of a request line everything depends on its end. */
  lemma LineStartReads(r: Request, y: seq<char>)
    requires Words(r) && y != [] && y[0] in WORD_END
    ensures RequestLine(LineStart(r) + y) ==
            match SkipNewLine(y)
            case Ok(end) => Ok(Item(r, end.rest))
            case IncompleteInput => IncompleteInput
            case ErrorInRequest => ErrorInRequest
  {
    hide ParseWord, SkipChar, SkipNewLine, Find, IsWord;
    var s2 := r.version + y;
    var s1 := r.address + ([' '] + s2);
    assert LineStart(r) + y == r.verb + ([' '] + (['/'] + s1));
    WordReads(r.verb, ' ', ['/'] + s1);
    SkipOne(' ', ['/'] + s1);
    SkipOne('/', s1);
    WordReads(r.address, ' ', s2);
    SkipOne(' ', s2);
    assert y == [y[0]] + y[1..];
    WordReads(r.version, y[0], y[1..]);
  }

  lemma RequestLineReads(r: Request, x: seq<char>)
    requires Words(r)
    ensures RequestLine(LineText(r) + x) == Ok(Item(r, x))
  {
    hide RequestLine, SkipNewLine, LineStart;
    var y := "\r\n" + x;
    assert LineText(r) + x == LineStart(r) + y;
    SkipNewLineOne(x);
    LineStartReads(r, y);
  }

  lemma LineParts(s: seq<char>, v: string, s1: seq<char>, s2: seq<char>, s3: seq<char>, a: string, s4: seq<char>,
                  s5: seq<char>, w: string, s6: seq<char>)
    requires s == v + s1 && s1 == " " + s2 && s2 == "/" + s3 && s3 == a + s4 && s4 == " " + s5 && s5 == w + s6
    ensures s == LineStart(Request(v, a, w)) + s6
  {
    assert s == v + (" " + ("/" + (a + (" " + (w + s6)))));
  }

  lemma CharIs(s: seq<char>, c: char)
    ensures var p := SkipChar(s, c); (p.Ok? ==> s == [c] + p.value.rest) && (p.IncompleteInput? <==> s == [])
  {
  }

  lemma NewLineIs(s: seq<char>)
    ensures var p := SkipNewLine(s); p.Ok? ==> s == "\r\n" + p.value.rest
  {
  }

  lemma RequestLineIs(s: seq<char>)
    ensures var p := RequestLine(s);
            p.Ok? ==> Words(p.value.it) && s == LineText(p.value.it) + p.value.rest
  {
    hide ParseWord, SkipChar, SkipNewLine, IsWord, LineStart;
    var p := RequestLine(s);
    if p.Ok? {
      var r, s6 := LineRead(s);
      NewLineIs(s6);
      assert LineText(r) + p.value.rest == LineStart(r) + s6;
    }
  }

  /** The words of a request line that ends in s6. */
  lemma LineRead(s: seq<char>) returns (r: Request, s6: seq<char>)
    requires RequestLine(s).Ok?
    ensures Words(r) && s == LineStart(r) + s6
    ensures SkipNewLine(s6).Ok? && RequestLine(s) == Ok(Item(r, SkipNewLine(s6).value.rest))
  {
    hide ParseWord, SkipChar, SkipNewLine, IsWord, LineStart;
    WordIs(s);
    var verb := ParseWord(s).value;
    CharIs(verb.rest, ' ');
    var space := SkipChar(verb.rest, ' ').value;
    CharIs(space.rest, '/');
    var slash := SkipChar(space.rest, '/').value;
    WordIs(slash.rest);
    var address := ParseWord(slash.rest).value;
    CharIs(address.rest, ' ');
    var blank := SkipChar(address.rest, ' ').value;
    WordIs(blank.rest);
    var version := ParseWord(blank.rest).value;
    r, s6 := Request(verb.it, address.it, version.it), version.rest;
    LineParts(s, verb.it, verb.rest, space.rest, slash.rest, address.it, address.rest, blank.rest, version.it, s6);
  }

  /** The request line parser accepts exactly this. */
  lemma RequestLineIff(s: seq<char>, r: Request, x: seq<char>)
    ensures RequestLine(s) == Ok(Item(r, x)) <==> Words(r) && s == LineText(r) + x
  {
    hide RequestLine, LineText, Words;
    RequestLineIs(s);
    if Words(r) && s == LineText(r) + x {
      RequestLineReads(r, x);
    }
  }

  // ---------- Incomplete or wrong ----------

  /** One space after a complete version: the parser waits for another byte although no request line
      begins like this. */
  ghost predicate LateSpace(s: seq<char>) {
    exists r :: Words(r) && s == LineStart(r) + " "
  }

  ghost predicate LineCompletes(s: seq<char>) {
    exists x :: RequestLine(s + x).Ok?
  }

  lemma CompletedBy(s: seq<char>, x: seq<char>, r: Request)
    requires Words(r) && s + x == LineText(r)
    ensures LineCompletes(s)
  {
    hide RequestLine, LineText, Words;
    RequestLineReads(r, []);
    assert s + x == LineText(r) + [];
  }

  lemma EmptyWord()
    ensures IsWord("")
  {
  }

  lemma VerbCompletes(v: string)
    requires IsWord(v)
    ensures LineCompletes(v)
    ensures LineCompletes(v + " ")
  {
    hide IsWord, LineText;
    EmptyWord();
    var r := Request(v, "", "");
    VerbLine(v);
    CompletedBy(v, " / \r\n", r);
    CompletedBy(v + " ", "/ \r\n", r);
  }

  lemma VerbLine(v: string)
    ensures v + " / \r\n" == LineText(Request(v, "", ""))
    ensures (v + " ") + "/ \r\n" == LineText(Request(v, "", ""))
  {
    assert " /" + "" + " " + "" + "\r\n" == " / \r\n" == " " + "/ \r\n";
    Associates(v, " /", "", " ", "", "\r\n");
    Associates(v, " ", "/ \r\n", "", "", "");
  }

  lemma Associates(a: string, b: string, c: string, d: string, e: string, f: string)
    ensures a + b + c + d + e + f == a + (b + c + d + e + f)
  {
  }

  lemma AddressCompletes(v: string, a: string)
    requires IsWord(v) && IsWord(a)
    ensures LineCompletes(v + " /" + a)
  {
    hide IsWord;
    EmptyWord();
    var r := Request(v, a, "");
    assert (v + " /" + a) + " \r\n" == LineText(r);
    CompletedBy(v + " /" + a, " \r\n", r);
  }

  lemma VersionCompletes(r: Request)
    requires Words(r)
    ensures LineCompletes(LineStart(r)) && LineCompletes(LineStart(r) + "\r")
  {
    hide Words, LineStart;
    CompletedBy(LineStart(r), "\r\n", r);
    assert (LineStart(r) + "\r") + "\n" == LineText(r);
    CompletedBy(LineStart(r) + "\r", "\n", r);
  }

  lemma Slashed(s: seq<char>, v: string, s1: seq<char>, s2: seq<char>, s3: seq<char>)
    requires s == v + s1 && s1 == [' '] + s2 && s2 == ['/'] + s3
    ensures s == v + " /" + s3
  {
  }

  /** Whoever is asked for more input can send it, but for the late space. */
  lemma IncompleteCompletes(s: seq<char>)
    requires RequestLine(s).IncompleteInput?
    ensures LineCompletes(s) || LateSpace(s)
  {
    hide ParseWord, SkipChar, SkipNewLine, IsWord, LineStart, LineCompletes, LateSpace;
    WordIs(s);
    if IsWord(s) {
      VerbCompletes(s);
      return;
    }
    var verb := ParseWord(s).value;
    CharIs(verb.rest, ' ');
    var space := SkipChar(verb.rest, ' ').value;
    CharIs(space.rest, '/');
    if space.rest == [] {
      assert s == verb.it + " ";
      VerbCompletes(verb.it);
      return;
    }
    var slash := SkipChar(space.rest, '/').value;
    WordIs(slash.rest);
    Slashed(s, verb.it, verb.rest, space.rest, slash.rest);
    if IsWord(slash.rest) {
      AddressCompletes(verb.it, slash.rest);
      return;
    }
    var address := ParseWord(slash.rest).value;
    CharIs(address.rest, ' ');
    var blank := SkipChar(address.rest, ' ').value;
    VersionEnds(s, verb.it, slash.rest, address.it, blank.rest);
  }

  lemma VersionEnds(s: seq<char>, v: string, s3: seq<char>, a: string, s5: seq<char>)
    requires IsWord(v) && IsWord(a) && s == v + " /" + s3 && s3 == a + (" " + s5)
    requires ParseWord(s5).Ok? ==> SkipNewLine(ParseWord(s5).value.rest).IncompleteInput?
    ensures LineCompletes(s) || LateSpace(s)
  {
    hide ParseWord, SkipNewLine, IsWord, LineCompletes, LateSpace;
    WordIs(s5);
    var w, s6 := s5, [];
    if !IsWord(s5) {
      w, s6 := ParseWord(s5).value.it, ParseWord(s5).value.rest;
    }
    assert s == LineStart(Request(v, a, w)) + s6;
    LineEndCompletes(s, Request(v, a, w), s6);
  }

  lemma LineEndCompletes(s: seq<char>, r: Request, s6: seq<char>)
    requires Words(r) && s == LineStart(r) + s6 && (s6 != [] ==> s6[0] in WORD_END && SkipNewLine(s6).IncompleteInput?)
    ensures LineCompletes(s) || LateSpace(s)
  {
    hide Words, LineStart, LineCompletes;
    VersionCompletes(r);
    if s6 == [] {
      assert s == LineStart(r);
    } else {
      assert s6 == [s6[0]];
    }
  }

  lemma LateSpaceFails(s: seq<char>, x: seq<char>)
    requires LateSpace(s)
    ensures RequestLine(s).IncompleteInput? && (x != [] ==> RequestLine(s + x).ErrorInRequest?)
  {
    hide RequestLine, Words, LineStart;
    var r :| Words(r) && s == LineStart(r) + " ";
    LineStartReads(r, " ");
    assert s + x == LineStart(r) + (" " + x);
    LineStartReads(r, " " + x);
  }

  lemma LateSpaceHappens(x: seq<char>)
    ensures RequestLine("GET / HTTP/1.1 ").IncompleteInput? && !RequestLine("GET / HTTP/1.1 " + x).Ok?
  {
    hide RequestLine;
    var r := Request("GET", "", "HTTP/1.1");
    assert Words(r) && "GET / HTTP/1.1 " == LineStart(r) + " ";
    LateSpaceFails("GET / HTTP/1.1 ", x);
    assert "GET / HTTP/1.1 " + [] == "GET / HTTP/1.1 ";
  }

  /** A request line is rejected exactly if no continuation can make it right, except that the late
      space is noticed one byte too late. */
  lemma LineRejectedIff(s: seq<char>)
    ensures RequestLine(s).ErrorInRequest? <==> !LineCompletes(s) && !LateSpace(s)
    ensures RequestLine(s).IncompleteInput? <==> !RequestLine(s).Ok? && (LineCompletes(s) || LateSpace(s))
    ensures LateSpace(s) ==> RequestLine(s).IncompleteInput? && !LineCompletes(s)
  {
    hide RequestLine, LateSpace;
    assert s + [] == s;
    if RequestLine(s).IncompleteInput? {
      IncompleteCompletes(s);
    }
    forall x ensures LateSpace(s) ==> RequestLine(s).IncompleteInput? && !RequestLine(s + x).Ok? {
      if LateSpace(s) {
        LateSpaceFails(s, x);
        assert s + [] == s;
      }
    }
    forall x ensures RequestLine(s).ErrorInRequest? ==> !RequestLine(s + x).Ok? {
      RequestLineStands(s, x);
    }
  }

  /** In particular an address without its slash is an error, at once and whatever follows. */
  lemma NoSlash(v: string, c: char, y: seq<char>, past: char)
    requires IsWord(v) && c != '/'
    ensures ParseRequest(v + " " + [c] + y, past).ErrorInRequest?
  {
    hide ParseWord, IsWord;
    assert v + " " + [c] + y == v + ([' '] + ([c] + y));
    WordReads(v, ' ', [c] + y);
    SkipOne(' ', [c] + y);
  }

  // ---------- Header lines ----------

  predicate IsHeader(h: string) {
    h != [] && '\r' !in h
  }

  predicate Headers(hs: seq<string>) {
    forall i :: 0 <= i < |hs| ==> IsHeader(hs[i])
  }

  /** Each header with its line end. */
  function Lines(hs: seq<string>): (s: seq<char>) {
    if hs == [] then [] else hs[0] + "\r\n" + Lines(hs[1..])
  }

  lemma LineReads(h: string, x: seq<char>, past: char)
    requires '\r' !in h
    ensures ParseLine(h + ("\r\n" + x), past) == Ok(Item(h, x))
    ensures Find(h + ("\r\n" + x), LINE_END) == |h|
  {
    var s := h + ("\r\n" + x);
    FindIs(s, LINE_END, |h|);
    assert s[..|h|] == h && s[|h| + 2..] == x;
  }

  lemma HeaderPassed(h: string, t: seq<char>, past: char)
    requires IsHeader(h)
    ensures var s := h + ("\r\n" + t);
            SkipHeaders(s, past) == SkipHeaders(t, past) && (HeadersPeek(s) <==> HeadersPeek(t))
  {
    hide ParseLine, Find;
    LineReads(h, t, past);
    assert (h + ("\r\n" + t))[|h| + 2..] == t;
  }

  lemma {:induction false} HeadersRead(hs: seq<string>, x: seq<char>, past: char)
    requires Headers(hs)
    ensures SkipHeaders(Lines(hs) + "\r\n" + x, past) == Ok(Item((), x)) && !HeadersPeek(Lines(hs) + "\r\n" + x)
    decreases |hs|
  {
    hide ParseLine, Find;
    var s := Lines(hs) + "\r\n" + x;
    if hs == [] {
      assert s == [] + ("\r\n" + x);
      LineReads([], x, past);
    } else {
      var more := Lines(hs[1..]) + "\r\n" + x;
      assert s == hs[0] + ("\r\n" + more);
      HeaderPassed(hs[0], more, past);
      HeadersRead(hs[1..], x, past);
    }
  }

  lemma LineIs(s: seq<char>, past: char)
    ensures var p := ParseLine(s, past);
            && (p.IncompleteInput? <==> '\r' !in s)
            && (p.Ok? ==>
                  var h, rest := p.value.it, p.value.rest;
                  && '\r' !in h
                  && (s == h + "\r\n" + rest || (past == '\n' && rest == [] && s == h + "\r")))
  {
    var k := Find(s, LINE_END);
    if k < |s| {
      assert s[k] in s;
      assert s[..k + 1] == s[..k] + "\r";
      if k + 1 < |s| && s[k + 1] == '\n' {
        assert s == s[..k] + "\r\n" + s[k + 2..];
      }
    } else {
      assert forall i :: 0 <= i < |s| ==> s[i] != '\r';
    }
  }

  /** The header lines that were read. */
  lemma {:induction false} HeadersAre(s: seq<char>, past: char) returns (hs: seq<string>)
    requires SkipHeaders(s, past).Ok?
    ensures Headers(hs)
    ensures var rest := SkipHeaders(s, past).value.rest;
            s == Lines(hs) + "\r\n" + rest || (past == '\n' && rest == [] && s == Lines(hs) + "\r")
    decreases |s|
  {
    hide ParseLine;
    LineIs(s, past);
    var line := ParseLine(s, past).value;
    if line.it == [] {
      hs := [];
    } else {
      var more := HeadersAre(line.rest, past);
      NoMoreHeaders(past);
      hs := [line.it] + more;
      HeadersCons(line.it, more, line.rest, SkipHeaders(s, past).value.rest);
    }
  }

  lemma NoMoreHeaders(past: char)
    ensures SkipHeaders([], past).IncompleteInput?
  {
  }

  lemma HeadersCons(h: string, more: seq<string>, s: seq<char>, rest: seq<char>)
    ensures Lines([h] + more) == h + "\r\n" + Lines(more)
    ensures s == Lines(more) + "\r\n" + rest ==> h + "\r\n" + s == Lines([h] + more) + "\r\n" + rest
    ensures s == Lines(more) + "\r" ==> h + "\r\n" + s == Lines([h] + more) + "\r"
  {
    assert ([h] + more)[1..] == more;
  }

  lemma HeadersStep(s: seq<char>, past: char)
    ensures var p, q := ParseLine(s, past), SkipHeaders(s, past);
            match p
            case Ok(line) =>
              && (line.it == [] ==> q.Ok?) && (line.it != [] ==> q == SkipHeaders(line.rest, past))
              && (line.it != [] && '\r' !in line.it ==> IsHeader(line.it))
            case IncompleteInput => q.IncompleteInput?
            case ErrorInRequest => q.ErrorInRequest?
  {
    hide ParseLine;
  }

  lemma {:induction false} HeadersComplete(s: seq<char>, past: char)
    requires SkipHeaders(s, past).IncompleteInput? && !HeadersPeek(s)
    ensures SkipHeaders(s + "\r\n\r\n", past).Ok?
    decreases |s|
  {
    hide ParseLine, SkipHeaders, HeadersPeek, IsHeader;
    LineIs(s, past);
    HeadersStep(s, past);
    var x := "\r\n\r\n";
    if '\r' !in s {
      assert s + x == s + ("\r\n" + "\r\n");
      LineReads(s, "\r\n", past);
      HeadersStep(s + x, past);
      HeadersRead([], [], past);
      assert Lines([]) + "\r\n" + [] == "\r\n";
    } else {
      var line := ParseLine(s, past).value;
      LineNotPeeked(s, past);
      assert s + x == line.it + ("\r\n" + (line.rest + x));
      HeaderPassed(line.it, line.rest + x, past);
      HeadersComplete(line.rest, past);
    }
  }

  lemma LineNotPeeked(s: seq<char>, past: char)
    requires ParseLine(s, past).Ok? && !HeadersPeek(s)
    ensures var line := ParseLine(s, past).value;
            s == line.it + "\r\n" + line.rest && (line.it != [] ==> !HeadersPeek(line.rest))
  {
    hide ParseLine, HeadersPeek;
    LineIs(s, past);
    PeekStep(s, past);
  }

  lemma PeekStep(s: seq<char>, past: char)
    requires ParseLine(s, past).Ok?
    ensures var line := ParseLine(s, past).value;
            && (s == line.it + "\r" ==> HeadersPeek(s))
            && (line.it != [] && s == line.it + "\r\n" + line.rest && HeadersPeek(line.rest) ==> HeadersPeek(s))
  {
  }

  // ---------- Whole requests ----------

  /** A request as it is sent: the request, as the parser reports it, and its header lines. */
  datatype Message = Message(request: Request, headers: seq<string>)

  predicate Good(m: Message) {
    Words(m.request) && Headers(m.headers)
  }

  function Text(m: Message): (s: seq<char>) {
    LineText(m.request) + Lines(m.headers) + "\r\n"
  }

  /** Header lines or not, a message is taken whole, whatever follows. */
  lemma MessageReads(m: Message, x: seq<char>, past: char)
    requires Good(m)
    ensures ParseRequest(Text(m) + x, past) == Ok(Item(m.request, x)) && !Peeks(Text(m) + x)
  {
    hide RequestLine, SkipHeaders, LineText, Lines, HeadersPeek, Words, Headers;
    var s := Lines(m.headers) + "\r\n" + x;
    assert Text(m) + x == LineText(m.request) + s;
    RequestLineReads(m.request, s);
    HeadersRead(m.headers, x, past);
  }

  /** s holds message m and then x, or lacks just the line feed of m that the parser finds behind the
      end of the input. */
  predicate Holds(s: seq<char>, past: char, m: Message, x: seq<char>) {
    s == Text(m) + x || (past == '\n' && x == [] && s + "\n" == Text(m))
  }

  /** The parser accepts exactly the messages. */
  lemma ParsedIff(s: seq<char>, past: char, r: Request, x: seq<char>)
    ensures ParseRequest(s, past) == Ok(Item(r, x)) <==>
            exists hs :: Good(Message(r, hs)) && Holds(s, past, Message(r, hs), x)
  {
    hide Text, Good, ParseRequest, Holds;
    if ParseRequest(s, past) == Ok(Item(r, x)) {
      var hs := MessageParsed(s, past);
    } else if hs :| Good(Message(r, hs)) && Holds(s, past, Message(r, hs), x) {
      HeldIsRead(s, past, Message(r, hs), x);
    }
  }

  lemma MessageParsed(s: seq<char>, past: char) returns (hs: seq<string>)
    requires ParseRequest(s, past).Ok?
    ensures var item := ParseRequest(s, past).value;
            Good(Message(item.it, hs)) && Holds(s, past, Message(item.it, hs), item.rest)
  {
    hide RequestLine, SkipHeaders, LineText, Lines, Words, Headers;
    RequestLineIs(s);
    var line := RequestLine(s).value;
    hs := HeadersAre(line.rest, past);
    var rest := SkipHeaders(line.rest, past).value.rest;
    TextParts(line.it, hs, line.rest, rest);
  }

  lemma TextParts(r: Request, hs: seq<string>, s: seq<char>, rest: seq<char>)
    ensures s == Lines(hs) + "\r\n" + rest ==> LineText(r) + s == Text(Message(r, hs)) + rest
    ensures s == Lines(hs) + "\r" ==> LineText(r) + s + "\n" == Text(Message(r, hs))
  {
    hide LineText, Lines;
  }

  lemma HeldIsRead(s: seq<char>, past: char, m: Message, x: seq<char>)
    requires Good(m) && Holds(s, past, m, x)
    ensures ParseRequest(s, past) == Ok(Item(m.request, x))
  {
    hide Text, Good, ParseRequest;
    if s == Text(m) + x {
      MessageReads(m, x, past);
    } else {
      CutShort(m, |s|, past);
      assert s == Text(m)[..|s|];
    }
  }

  // ---------- Messages cut short ----------

  /** A cut of message m after n bytes that misleads the parser: right behind a CR after the request
      line, if it is the last one or the byte found behind it is not LF. */
  predicate Misleads(m: Message, n: nat, past: char) {
    && |LineText(m.request)| < n < |Text(m)| && Text(m)[n - 1] == '\r'
    && (n + 1 == |Text(m)| || past != '\n')
  }

  lemma {:induction false} HeadersCut(hs: seq<string>, n: nat, past: char)
    requires Headers(hs) && n < |Lines(hs)| + 2
    ensures var s := (Lines(hs) + "\r\n")[..n];
            && (HeadersPeek(s) <==> n > 0 && s[n - 1] == '\r')
            && SkipHeaders(s, past) ==
                 (if n == |Lines(hs)| + 1 then if past == '\n' then Ok(Item((), [])) else ErrorInRequest
                  else if n > 0 && s[n - 1] == '\r' && past != '\n' then ErrorInRequest
                  else IncompleteInput)
            && (n == |Lines(hs)| + 1 ==> s[n - 1] == '\r')
    decreases |hs|
  {
    hide SkipHeaders, HeadersPeek, IsHeader;
    var s := (Lines(hs) + "\r\n")[..n];
    if hs == [] {
      EmptyLineCut(s, past);
    } else {
      var h, l := hs[0], Lines(hs[1..]) + "\r\n";
      assert Lines(hs) + "\r\n" == h + "\r\n" + l;
      if n < |h| + 2 {
        assert s == (h + "\r\n")[..n];
        HeaderCut(h, n, past);
      } else {
        var t := l[..n - |h| - 2];
        assert s == h + ("\r\n" + t);
        HeaderPassed(h, t, past);
        HeadersCut(hs[1..], |t|, past);
      }
    }
  }

  lemma EmptyLineCut(s: seq<char>, past: char)
    requires s == [] || s == "\r"
    ensures HeadersPeek(s) <==> s == "\r"
    ensures SkipHeaders(s, past) ==
            if s == [] then IncompleteInput else if past == '\n' then Ok(Item((), [])) else ErrorInRequest
  {
    if s != [] {
      FindIs(s, LINE_END, 0);
      assert s[..0] == [];
    }
  }

  lemma HeaderCut(h: string, n: nat, past: char)
    requires IsHeader(h) && n < |h| + 2
    ensures var s := (h + "\r\n")[..n];
            && (HeadersPeek(s) <==> n == |h| + 1) && (n == |h| + 1 <==> n > 0 && s[n - 1] == '\r')
            && SkipHeaders(s, past) == if n == |h| + 1 && past != '\n' then ErrorInRequest else IncompleteInput
  {
    hide ParseLine, Find;
    var s := (h + "\r\n")[..n];
    LineIs(s, past);
    NoMoreHeaders(past);
    if n == |h| + 1 {
      assert s == h + "\r";
      FindIs(s, LINE_END, |h|);
      CrLast(h, past);
    } else {
      assert s == h[..n];
      FindNone(s);
    }
  }

  lemma CrLast(h: string, past: char)
    requires '\r' !in h
    ensures ParseLine(h + "\r", past) == if past == '\n' then Ok(Item(h, [])) else ErrorInRequest
  {
    FindIs(h + "\r", LINE_END, |h|);
    assert (h + "\r")[..|h|] == h;
  }

  lemma FindNone(s: seq<char>)
    requires '\r' !in s
    ensures Find(s, LINE_END) == |s|
  {
  }

  /** Every proper prefix of a message is incomplete, unless the cut misleads the parser. */
  lemma CutShort(m: Message, n: nat, past: char)
    requires Good(m) && n < |Text(m)|
    ensures ParseRequest(Text(m)[..n], past) ==
            if !Misleads(m, n, past) then IncompleteInput
            else if n + 1 == |Text(m)| && past == '\n' then Ok(Item(m.request, [])) else ErrorInRequest
    ensures Peeks(Text(m)[..n]) <==> |LineText(m.request)| < n && Text(m)[n - 1] == '\r'
    ensures |Text(m)| >= 2 && Text(m)[|Text(m)| - 2] == '\r' && |LineText(m.request)| + 1 < |Text(m)|
  {
    hide RequestLine, SkipHeaders, HeadersPeek, LineText, Lines, Words, Headers;
    var line, s := LineText(m.request), Text(m)[..n];
    if n < |line| {
      LineCut(m.request, n);
      assert s == line[..n];
    } else {
      var l := Lines(m.headers) + "\r\n";
      assert s == line + l[..n - |line|];
      RequestLineReads(m.request, l[..n - |line|]);
      HeadersCut(m.headers, n - |line|, past);
      assert n > |line| ==> Text(m)[n - 1] == l[..n - |line|][n - |line| - 1];
    }
  }

  lemma LineCut(r: Request, n: nat)
    requires Words(r) && n < |LineText(r)|
    ensures RequestLine(LineText(r)[..n]).IncompleteInput?
  {
    hide RequestLine, LineText;
    var line := LineText(r);
    assert line[..n] + line[n..] == line == line + [];
    RequestLineReads(r, []);
    RequestLineStands(line[..n], line[n..]);
  }

  // ---------- Requests that can still be completed ----------

  ghost predicate Completes(s: seq<char>, past: char) {
    exists x :: ParseRequest(s + x, past).Ok?
  }

  /** A request is rejected exactly if no continuation can make it right, except that the late space
      is noticed one byte too late and that a CR at the end of the input is judged by the byte found
      behind it. */
  lemma RejectedIff(s: seq<char>, past: char)
    ensures ParseRequest(s, past).ErrorInRequest? <==>
            (!Completes(s, past) && !LateSpace(s)) || (Peeks(s) && past != '\n')
    ensures Peeks(s) ==> Completes(s, past)
    ensures LateSpace(s) ==> !Completes(s, past)
  {
    hide RequestLine, SkipHeaders, LateSpace, HeadersPeek, LineCompletes, Completes;
    LineRejectedIff(s);
    LineCompletesIff(s, past);
    if RequestLine(s).Ok? {
      HeadersRejected(s, past);
    }
  }

  lemma LineCompletesIff(s: seq<char>, past: char)
    ensures Completes(s, past) ==> LineCompletes(s)
    ensures LineCompletes(s) && !RequestLine(s).Ok? ==> Completes(s, past)
  {
    hide RequestLine, SkipHeaders;
    if LineCompletes(s) && !RequestLine(s).Ok? {
      var x :| RequestLine(s + x).Ok?;
      RequestLineIs(s + x);
      var r, rest := RequestLine(s + x).value.it, RequestLine(s + x).value.rest;
      BeginsLine(s, x, r, rest);
      var more := LineText(r)[|s|..] + "\r\n";
      assert s + more == Text(Message(r, [])) + [];
      MessageReads(Message(r, []), [], past);
      assert ParseRequest(s + more, past).Ok?;
    } else if Completes(s, past) {
      var x :| ParseRequest(s + x, past).Ok?;
      assert RequestLine(s + x).Ok?;
    }
  }

  lemma BeginsLine(s: seq<char>, x: seq<char>, r: Request, rest: seq<char>)
    requires Words(r) && s + x == LineText(r) + rest && !RequestLine(s).Ok?
    ensures |s| < |LineText(r)| && s == LineText(r)[..|s|]
  {
    hide RequestLine, LineText, Words;
    if |s| >= |LineText(r)| {
      var y := s[|LineText(r)|..];
      assert s == LineText(r) + y by {
        assert s[..|LineText(r)|] == (s + x)[..|LineText(r)|] == LineText(r);
      }
      RequestLineReads(r, y);
    } else {
      assert s == (s + x)[..|s|];
    }
  }

  lemma HeadersRejected(s: seq<char>, past: char)
    requires RequestLine(s).Ok?
    ensures ParseRequest(s, past).ErrorInRequest? <==> !Completes(s, past) || (Peeks(s) && past != '\n')
    ensures Peeks(s) ==> Completes(s, past)
  {
    hide RequestLine, SkipHeaders, HeadersPeek;
    var t := RequestLine(s).value.rest;
    if HeadersPeek(t) {
      HeadersPeekGoesOn(t, past);
      RequestLineStands(s, "\n\r\n");
      assert ParseRequest(s + "\n\r\n", past).Ok?;
      HeadersPeekFails(t, past);
      HeadersPeekWaits(t);
    } else {
      match SkipHeaders(t, past)
      case Ok(_) => assert s + [] == s;
      case IncompleteInput =>
        HeadersComplete(t, past);
        RequestLineStands(s, "\r\n\r\n");
        assert ParseRequest(s + "\r\n\r\n", past).Ok?;
      case ErrorInRequest =>
        forall x ensures !ParseRequest(s + x, past).Ok? {
          RequestLineStands(s, x);
          HeadersStand(t, x, past, past);
        }
    }
  }

  lemma {:induction false} HeadersPeekWaits(s: seq<char>)
    requires HeadersPeek(s)
    ensures !SkipHeaders(s, '\n').ErrorInRequest?
    decreases |s|
  {
    var k := Find(s, LINE_END);
    if k + 1 < |s| {
      HeadersPeekWaits(s[k + 2..]);
    } else {
      NoMoreHeaders('\n');
    }
  }
}
