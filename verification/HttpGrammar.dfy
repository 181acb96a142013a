/** What the request printer writes and what the request parser makes of a byte sequence. */
module HttpGrammar {

  datatype Request = Request(verb: string, address: string, version: string)

  /** The outcome of parsing: IncompleteInput and ErrorInRequest are the parser's exceptions. */
  datatype Parsed<+T> = Ok(value: T) | IncompleteInput | ErrorInRequest {
    predicate IsFailure() {
      !Ok?
    }
    function PropagateFailure<U>(): (p: Parsed<U>)
      requires IsFailure()
    {
      if IncompleteInput? then Parsed.IncompleteInput else Parsed.ErrorInRequest
    }
    function Extract(): (t: T)
      requires !IsFailure()
    {
      value
    }
  }

  /** A parsed item and the input after it. */
  datatype Item<+T> = Item(it: T, rest: seq<char>)

  // ---------- The parser as a function ----------

  /** Where the first of the stop characters is, or the length. */
  function Find(s: seq<char>, stops: set<char>): (k: nat)
    ensures k <= |s| && (forall i :: 0 <= i < k ==> s[i] !in stops) && (k < |s| ==> s[k] in stops)
  {
    if s == [] || s[0] in stops then 0 else 1 + Find(s[1..], stops)
  }

  lemma FindIs(s: seq<char>, stops: set<char>, k: nat)
    requires k < |s| && s[k] in stops && forall i :: 0 <= i < k ==> s[i] !in stops
    ensures Find(s, stops) == k
  {
  }

  /** t is no longer than s and, if there is anything in it, ends in the same character. */
  predicate Later(t: seq<char>, s: seq<char>) {
    |t| <= |s| && (t != [] ==> t[|t| - 1] == s[|s| - 1])
  }

  const WORD_END := {' ', '\r'}
  const LINE_END := {'\r'}

  function ParseWord(s: seq<char>): (p: Parsed<Item<string>>)
    ensures p.Ok? ==> Later(p.value.rest, s)
  {
    var k := Find(s, WORD_END);
    if k == |s| then IncompleteInput else Ok(Item(s[..k], s[k..]))
  }

  function SkipChar(s: seq<char>, c: char): (p: Parsed<Item<()>>)
    ensures p.Ok? ==> Later(p.value.rest, s)
  {
    if s == [] then IncompleteInput else if s[0] != c then ErrorInRequest else Ok(Item((), s[1..]))
  }

  function SkipNewLine(s: seq<char>): (p: Parsed<Item<()>>)
    ensures p.Ok? ==> Later(p.value.rest, s)
  {
    if |s| < 2 then IncompleteInput
    else if s[0] != '\r' || s[1] != '\n' then ErrorInRequest
    else Ok(Item((), s[2..]))
  }

  /** parseLine looks at the byte after CR without asking whether there is one: at the end of the
      data it finds whatever byte is stored there, here called past. */
  function ParseLine(s: seq<char>, past: char): (p: Parsed<Item<string>>)
    ensures p.Ok? ==> |p.value.rest| < |s| && Later(p.value.rest, s)
  {
    var k := Find(s, LINE_END);
    if k == |s| then IncompleteInput
    else
      var second := if k + 1 < |s| then s[k + 1] else past;
      if second != '\n' then ErrorInRequest
      else Ok(Item(s[..k], if k + 1 < |s| then s[k + 2..] else []))
  }

  function RequestLine(s: seq<char>): (p: Parsed<Item<Request>>)
    ensures p.Ok? ==> Later(p.value.rest, s)
  {
    var verb :- ParseWord(s);
    var space :- SkipChar(verb.rest, ' ');
    var slash :- SkipChar(space.rest, '/');
    var address :- ParseWord(slash.rest);
    var blank :- SkipChar(address.rest, ' ');
    var version :- ParseWord(blank.rest);
    var end :- SkipNewLine(version.rest);
    Ok(Item(Request(verb.it, address.it, version.it), end.rest))
  }

  /** The header lines are read and forgotten up to an empty one. */
  function SkipHeaders(s: seq<char>, past: char): (p: Parsed<Item<()>>)
    ensures p.Ok? ==> |p.value.rest| < |s| && Later(p.value.rest, s)
    decreases |s|
  {
    var line :- ParseLine(s, past);
    if line.it == [] then Ok(Item((), line.rest)) else SkipHeaders(line.rest, past)
  }

  function ParseRequest(s: seq<char>, past: char): (p: Parsed<Item<Request>>)
    ensures p.Ok? ==> |p.value.rest| < |s| && Later(p.value.rest, s)
  {
    var line :- RequestLine(s);
    var end :- SkipHeaders(line.rest, past);
    Ok(Item(line.it, end.rest))
  }

  // ---------- When the outcome can be trusted ----------

  /** Reading header lines from s ends at a CR that is the last byte. */
  predicate HeadersPeek(s: seq<char>)
    decreases |s|
  {
    var k := Find(s, LINE_END);
    || k + 1 == |s|
    || (0 < k && k + 1 < |s| && s[k + 1] == '\n' && HeadersPeek(s[k + 2..]))
  }

  /** Parsing a request from s looks at the byte beyond the end. */
  predicate Peeks(s: seq<char>) {
    var line := RequestLine(s);
    line.Ok? && HeadersPeek(line.value.rest)
  }

  /** The outcome p still stands, as p', when x comes after the input: a parsed item is the same
      and x is added to the rest, an error stays an error. */
  predicate Stands<T(==)>(p: Parsed<Item<T>>, x: seq<char>, p': Parsed<Item<T>>) {
    match p
    case Ok(item) => p' == Ok(Item(item.it, item.rest + x))
    case IncompleteInput => true
    case ErrorInRequest => p'.ErrorInRequest?
  }

  lemma WordStands(s: seq<char>, x: seq<char>)
    ensures Stands(ParseWord(s), x, ParseWord(s + x)) && !ParseWord(s).ErrorInRequest?
  {
    var k := Find(s, WORD_END);
    if k < |s| {
      FindIs(s + x, WORD_END, k);
      assert (s + x)[..k] == s[..k] && (s + x)[k..] == s[k..] + x;
    }
  }

  lemma SkipCharStands(s: seq<char>, c: char, x: seq<char>)
    ensures Stands(SkipChar(s, c), x, SkipChar(s + x, c))
  {
    if s != [] {
      assert (s + x)[1..] == s[1..] + x;
    }
  }

  lemma SkipNewLineStands(s: seq<char>, x: seq<char>)
    ensures Stands(SkipNewLine(s), x, SkipNewLine(s + x))
  {
    if |s| >= 2 {
      assert (s + x)[2..] == s[2..] + x;
    }
  }

  lemma RequestLineStands(s: seq<char>, x: seq<char>)
    ensures Stands(RequestLine(s), x, RequestLine(s + x))
  {
    hide ParseWord, SkipChar, SkipNewLine;
    WordStands(s, x);
    var verb := ParseWord(s);
    if !verb.Ok? { return; }
    SkipCharStands(verb.value.rest, ' ', x);
    var space := SkipChar(verb.value.rest, ' ');
    if !space.Ok? { return; }
    SkipCharStands(space.value.rest, '/', x);
    var slash := SkipChar(space.value.rest, '/');
    if !slash.Ok? { return; }
    WordStands(slash.value.rest, x);
    var address := ParseWord(slash.value.rest);
    if !address.Ok? { return; }
    SkipCharStands(address.value.rest, ' ', x);
    var blank := SkipChar(address.value.rest, ' ');
    if !blank.Ok? { return; }
    WordStands(blank.value.rest, x);
    var version := ParseWord(blank.value.rest);
    if !version.Ok? { return; }
    SkipNewLineStands(version.value.rest, x);
  }

  /** Header lines are read the same whatever follows, unless they end in a CR that is the last
      byte. */
  lemma {:induction false} HeadersStand(s: seq<char>, x: seq<char>, past: char, past': char)
    requires !HeadersPeek(s)
    ensures Stands(SkipHeaders(s, past), x, SkipHeaders(s + x, past'))
    decreases |s|
  {
    var k := Find(s, LINE_END);
    if k < |s| {
      FindIs(s + x, LINE_END, k);
      assert (s + x)[..k] == s[..k] && (s + x)[k + 2..] == s[k + 2..] + x;
      if s[k + 1] == '\n' && k > 0 {
        HeadersStand(s[k + 2..], x, past, past');
      }
    }
  }

  lemma {:induction false} HeadersPeekFails(s: seq<char>, past: char)
    requires HeadersPeek(s)
    ensures s != [] && s[|s| - 1] == '\r'
    ensures past != '\n' ==> SkipHeaders(s, past).ErrorInRequest?
    decreases |s|
  {
    var k := Find(s, LINE_END);
    if k + 1 < |s| {
      HeadersPeekFails(s[k + 2..], past);
    }
  }

  lemma {:induction false} HeadersPeekGoesOn(s: seq<char>, past: char)
    requires HeadersPeek(s)
    ensures SkipHeaders(s + "\n\r\n", past).Ok?
    decreases |s|
  {
    hide Find;
    var k, x := Find(s, LINE_END), "\n\r\n";
    FindIs(s + x, LINE_END, k);
    assert (s + x)[..k] == s[..k];
    if k + 1 < |s| {
      assert (s + x)[k + 2..] == s[k + 2..] + x;
      HeadersPeekGoesOn(s[k + 2..], past);
    } else {
      assert (s + x)[k + 2..] == "\r\n";
      LastLine(past);
    }
  }

  lemma LastLine(past: char)
    ensures SkipHeaders("\r\n", past).Ok?
  {
  }

  /** For every x, past and past' the outcome on s still stands when x follows. */
  ghost predicate Final(s: seq<char>) {
    forall x: seq<char>, past: char, past': char ::
      Stands(ParseRequest(s, past), x, ParseRequest(s + x, past'))
  }

  /** Outcomes other than IncompleteInput are final exactly on input whose parsing does not look
      beyond the end. */
  lemma FinalUnlessPeeking(s: seq<char>)
    ensures Final(s) <==> !Peeks(s)
    ensures Peeks(s) ==> s != [] && s[|s| - 1] == '\r'
  {
    hide RequestLine, SkipHeaders, HeadersPeek;
    if Peeks(s) {
      var t := RequestLine(s).value.rest;
      HeadersPeekFails(t, 'x');
      HeadersPeekGoesOn(t, 'x');
      RequestLineStands(s, "\n\r\n");
      assert !Stands(ParseRequest(s, 'x'), "\n\r\n", ParseRequest(s + "\n\r\n", 'x'));
    } else {
      forall x: seq<char>, past: char, past': char
        ensures Stands(ParseRequest(s, past), x, ParseRequest(s + x, past'))
      {
        RequestLineStands(s, x);
        if RequestLine(s).Ok? {
          HeadersStand(RequestLine(s).value.rest, x, past, past');
        }
      }
    }
  }
}
