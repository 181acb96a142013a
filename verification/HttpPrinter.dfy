/** What the request printer writes, and when it can be read back. */
module HttpPrinter {
  import opened HttpGrammar
  import opened HttpLanguage

  /** What c_str() shows of a string: the part before the first NUL. */
  function CStr(s: string): (r: string) {
    s[..Find(s, {'\0'})]
  }

  function Print(r: Request): (s: seq<char>) {
    CStr(r.verb) + " " + CStr(r.address) + " " + CStr(r.version) + "\r\n\r\n"
  }

  /** A field that survives printing and parsing. */
  predicate Plain(w: string) {
    forall i :: 0 <= i < |w| ==> w[i] != ' ' && w[i] != '\r' && w[i] != '\0'
  }

  predicate Clean(r: Request) {
    Plain(r.verb) && Plain(r.address) && Plain(r.version) && r.address != [] && r.address[0] == '/'
  }

  /** The request as the parser reports it: the address without its slash. */
  function Shown(r: Request): (r': Request)
    requires Clean(r)
  {
    r.(address := r.address[1..])
  }

  /** A printed request is a message without headers. */
  lemma PrintIsText(r: Request)
    requires Clean(r)
    ensures var m := Message(Shown(r), []); Good(m) && Print(r) == Text(m)
  {
    hide Plain, IsWord, CStr;
    PlainIsWord(r.verb);
    PlainIsWord(r.address);
    PlainIsWord(r.version);
    PrintedLine(r.verb, r.address[1..], r.version);
    assert r.address == "/" + r.address[1..];
  }

  lemma PrintedLine(v: string, a: string, w: string)
    ensures v + " " + ("/" + a) + " " + w + "\r\n\r\n" == Text(Message(Request(v, a, w), []))
  {
    assert v + " " + ("/" + a) == v + " /" + a;
  }

  lemma PlainIsWord(w: string)
    requires Plain(w)
    ensures IsWord(w) && CStr(w) == w && (w != [] ==> IsWord(w[1..]))
  {
  }

  /** A clean request is parsed back from what was printed, whatever follows. */
  lemma RoundTrip(r: Request, x: seq<char>, past: char)
    requires Clean(r)
    ensures ParseRequest(Print(r) + x, past) == Ok(Item(Shown(r), x)) && !Peeks(Print(r) + x)
  {
    hide ParseRequest, Peeks, Print, Text, Good;
    PrintIsText(r);
    MessageReads(Message(Shown(r), []), x, past);
  }

  /** Only a plain word is read back whole. */
  lemma WordReadBack(w: string, c: char, x: seq<char>)
    requires c in WORD_END
    ensures var p := ParseWord(CStr(w) + ([c] + x)); p.Ok? && (p.value.it == w ==> Plain(w) && p.value.rest == [c] + x)
  {
    var n := |CStr(w)|;
    var s := CStr(w) + ([c] + x);
    var k := Find(s, WORD_END);
    assert s[n] == c && k <= n;
    if s[..k] == w {
      assert k == n;
      assert forall i :: 0 <= i < n ==> s[i] == w[i];
      assert s[k..] == [c] + x;
    }
  }

  predicate ReadBack(p: Parsed<Item<Request>>, r: Request) {
    && p.Ok?
    && p.value.it.verb == r.verb && "/" + p.value.it.address == r.address && p.value.it.version == r.version
  }

  /** A request comes back from its printed form, apart from the slash of its address, exactly if it
      is clean. */
  lemma RoundTripIff(r: Request, x: seq<char>, past: char)
    ensures ReadBack(ParseRequest(Print(r) + x, past), r) <==> Clean(r)
  {
    hide ParseRequest, Find, Plain, RequestLine, Print;
    if Clean(r) {
      RoundTrip(r, x, past);
    } else {
      var p := ParseRequest(Print(r) + x, past);
      LineOf(Print(r) + x, past);
      if ReadBack(p, r) {
        ReadBackIsClean(r, x);
      }
    }
  }

  lemma SlashCStr(a: string)
    ensures CStr("/" + a) == "/" + CStr(a)
    ensures Plain("/" + a) <==> Plain(a)
  {
  }

  lemma LineOf(s: seq<char>, past: char)
    ensures var p := ParseRequest(s, past);
            p.Ok? ==> RequestLine(s).Ok? && RequestLine(s).value.it == p.value.it
  {
  }

  lemma ReadBackIsClean(r: Request, x: seq<char>)
    requires ReadBack(RequestLine(Print(r) + x), r)
    ensures Clean(r)
  {
    hide ParseWord, SkipChar, SkipNewLine, Plain, CStr, Print;
    var a := r.address[1..];
    assert r.address == "/" + a;
    SlashCStr(a);
    var s2 := CStr(r.version) + (['\r'] + ("\n\r\n" + x));
    var s1 := CStr(a) + ([' '] + s2);
    PrintShape(r, a, x);
    WordReadBack(r.verb, ' ', ['/'] + s1);
    SkipOne(' ', ['/'] + s1);
    SkipOne('/', s1);
    WordReadBack(a, ' ', s2);
    SkipOne(' ', s2);
    WordReadBack(r.version, '\r', "\n\r\n" + x);
  }

  lemma PrintShape(r: Request, a: string, x: seq<char>)
    requires r.address == "/" + a
    ensures Print(r) + x ==
            CStr(r.verb) + ([' '] + (['/'] + (CStr(a) + ([' '] + (CStr(r.version) + (['\r'] + ("\n\r\n" + x)))))))
  {
    hide CStr;
    SlashCStr(a);
  }
}
