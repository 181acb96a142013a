/** The request parser over a buffer iterator and the request printer, proved against the
    grammar. */
module HttpParser {
  import opened StreamBuffer
  import opened BufferIterator
  import opened HttpGrammar
  import opened HttpPrinter

  /** How a parsing routine ends: normally or by one of its exceptions. */
  datatype Ending = Done | Incomplete | Failed

  ghost predicate Agrees<T>(ending: Ending, value: T, it: Iterator, p: Parsed<Item<T>>)
    requires it.Valid()
    reads it, it.buffer
  {
    match p
    case Ok(item) => ending == Done && value == item.it && it.Rest() == item.rest && it.Settled()
    case IncompleteInput => ending == Incomplete
    case ErrorInRequest => ending == Failed
  }

  method ParseString(it: Iterator) returns (ending: Ending, res: string)
    requires it.Valid() && it.Settled()
    modifies it
    ensures it.Valid()
    ensures Agrees(ending, res, it, ParseWord(old(it.Rest())))
  {
    hide SlowStep, Find, Without, Iterator.Valid, Iterator.Rest, Iterator.Settled, Iterator.Eob;
    res := [];
    if it.Eob() {
      return Incomplete, res;
    }
    ghost var s := it.Rest();
    WithoutNone(s, WORD_END);
    while !it.Eob()
      invariant it.Valid() && it.Settled()
      invariant |res| <= |s| && res == s[..|res|] && it.Rest() == s[|res|..]
      invariant Without(s, WORD_END, |res|)
      decreases |it.Rest()|
    {
      var c := it.GetChar();
      if c == ' ' || c == '\r' {
        break;
      }
      WithoutMore(s, WORD_END, |res|);
      res := res + [c];
      it.Next();
    }
    FoundAt(s, WORD_END, |res|);
    if it.Eob() {
      return Incomplete, res;
    }
    return Done, res;
  }

  method ParseLineOf(it: Iterator, past: char) returns (ending: Ending, res: string)
    requires it.Valid() && it.Settled()
    modifies it
    ensures it.Valid()
    ensures Agrees(ending, res, it, ParseLine(old(it.Rest()), past))
  {
    hide SlowStep, Find, Without, ParseLine, LineFeed, Iterator.Valid, Iterator.Rest, Iterator.Settled, Iterator.Eob;
    res := [];
    ghost var s := it.Rest();
    WithoutNone(s, LINE_END);
    FoundAt(s, LINE_END, 0);
    NoLine(s, past);
    if it.Eob() {
      return Incomplete, res;
    }
    while !it.Eob()
      invariant it.Valid() && it.Settled()
      invariant |res| <= |s| && res == s[..|res|] && it.Rest() == s[|res|..]
      invariant Without(s, LINE_END, |res|)
      decreases |it.Rest()|
    {
      var c := it.GetChar();
      if c == '\r' {
        FoundAt(s, LINE_END, |res|);
        LineIs(s, |res|, past);
        ending := AfterCr(it, past);
        return;
      }
      WithoutMore(s, LINE_END, |res|);
      res := res + [c];
      it.Next();
    }
    FoundAt(s, LINE_END, |res|);
    return Incomplete, res;
  }

  /** What parseLine does at a CR. */
  method AfterCr(it: Iterator, past: char) returns (ending: Ending)
    requires it.Valid() && it.Settled() && it.Rest() != []
    modifies it
    ensures it.Valid()
    ensures Agrees(ending, (), it, LineFeed(old(it.Rest()), past))
  {
    hide SlowStep, Iterator.Valid, Iterator.Rest, Iterator.Settled, Iterator.Eob;
    it.Next();
    var second := if it.Eob() then past else it.GetChar();
    if second == '\n' {
      it.Next();
      return Done;
    } else {
      return Failed;
    }
  }

  /** The byte after the CR at the front of s must be LF; past the end, it is whatever is stored there. */
  function LineFeed(s: seq<char>, past: char): (p: Parsed<Item<()>>)
    requires s != []
  {
    var second := if 1 < |s| then s[1] else past;
    if second != '\n' then ErrorInRequest else Ok(Item((), if 1 < |s| then s[2..] else []))
  }

  lemma NoLine(s: seq<char>, past: char)
    ensures Find(s, LINE_END) == |s| ==> ParseLine(s, past).IncompleteInput?
  {
  }

  lemma LineIs(s: seq<char>, k: nat, past: char)
    requires k < |s| && k == Find(s, LINE_END)
    ensures ParseLine(s, past) == match LineFeed(s[k..], past)
                                  case Ok(item) => Ok(Item(s[..k], item.rest))
                                  case IncompleteInput => IncompleteInput
                                  case ErrorInRequest => ErrorInRequest
  {
  }

  /** None of the first k characters is a stop. */
  ghost predicate Without(s: seq<char>, stops: set<char>, k: nat) {
    k <= |s| && forall i :: 0 <= i < k ==> s[i] !in stops
  }

  lemma FoundAt(s: seq<char>, stops: set<char>, k: nat)
    requires Without(s, stops, k)
    ensures k == |s| || s[k] in stops ==> Find(s, stops) == k
  {
  }

  lemma WithoutNone(s: seq<char>, stops: set<char>)
    ensures Without(s, stops, 0)
  {
  }

  lemma WithoutMore(s: seq<char>, stops: set<char>, k: nat)
    requires Without(s, stops, k) && k < |s| && s[k] !in stops
    ensures Without(s, stops, k + 1)
  {
  }

  method SkipOneChar(it: Iterator, skip: char) returns (ending: Ending)
    requires it.Valid() && it.Settled()
    modifies it
    ensures it.Valid()
    ensures Agrees(ending, (), it, SkipChar(old(it.Rest()), skip))
  {
    hide SlowStep, Iterator.Valid, Iterator.Rest, Iterator.Settled, Iterator.Eob;
    if it.Eob() {
      return Incomplete;
    }
    var c := it.GetChar();
    if c != skip {
      return Failed;
    }
    it.Next();
    return Done;
  }

  method SkipLineEnd(it: Iterator) returns (ending: Ending)
    requires it.Valid() && it.Settled()
    modifies it
    ensures it.Valid()
    ensures Agrees(ending, (), it, SkipNewLine(old(it.Rest())))
  {
    hide SlowStep, Iterator.Valid, Iterator.Rest, Iterator.Settled, Iterator.Eob;
    if it.Eob() {
      return Incomplete;
    }
    var first := it.GetChar();
    it.Next();
    if it.Eob() {
      return Incomplete;
    }
    var second := it.GetChar();
    if first != '\r' || second != '\n' {
      return Failed;
    }
    it.Next();
    return Done;
  }

  /** parseRequest up to the headers. */
  method ParseFirstLine(it: Iterator) returns (ending: Ending, request: Request)
    requires it.Valid() && it.Settled()
    modifies it
    ensures it.Valid()
    ensures Agrees(ending, request, it, RequestLine(old(it.Rest())))
  {
    hide ParseWord, SkipChar, SkipNewLine, Iterator.Valid, Iterator.Rest, Iterator.Settled;
    request := Request([], [], []);
    var word: string;
    ending, word := ParseString(it);
    if ending != Done { return; }
    request := request.(verb := word);
    ending := SkipOneChar(it, ' ');
    if ending != Done { return; }
    ending := SkipOneChar(it, '/');
    if ending != Done { return; }
    ending, word := ParseString(it);
    if ending != Done { return; }
    request := request.(address := word);
    ending := SkipOneChar(it, ' ');
    if ending != Done { return; }
    ending, word := ParseString(it);
    if ending != Done { return; }
    request := request.(version := word);
    ending := SkipLineEnd(it);
  }

  /** The loop of parseRequest over the header lines. */
  method SkipHeaderLines(it: Iterator, past: char) returns (ending: Ending)
    requires it.Valid() && it.Settled()
    modifies it
    ensures it.Valid()
    ensures Agrees(ending, (), it, SkipHeaders(old(it.Rest()), past))
  {
    hide ParseLine, Iterator.Valid, Iterator.Rest, Iterator.Settled;
    ghost var s := it.Rest();
    while true
      invariant it.Valid() && it.Settled()
      invariant SkipHeaders(s, past) == SkipHeaders(it.Rest(), past)
      decreases |it.Rest()|
    {
      ghost var t := it.Rest();
      LineShorter(t, past);
      var dummy;
      ending, dummy := ParseLineOf(it, past);
      if ending != Done || |dummy| == 0 {
        return;
      }
    }
  }

  lemma LineShorter(s: seq<char>, past: char)
    ensures var p := ParseLine(s, past); p.Ok? ==> |p.value.rest| < |s|
  {
  }

  /** parseRequest: 0 for a request, 1 for incomplete input and -1 for an error, each exactly when
      the grammar says so. */
  method ParseRequestFrom(it: Iterator, past: char) returns (rc: int, request: Request)
    requires it.Valid() && it.Settled()
    modifies it
    ensures it.Valid()
    ensures match ParseRequest(old(it.Rest()), past)
            case Ok(item) => rc == 0 && request == item.it && it.Rest() == item.rest
            case IncompleteInput => rc == 1
            case ErrorInRequest => rc == -1
  {
    hide RequestLine, SkipHeaders, Iterator.Valid, Iterator.Rest, Iterator.Settled;
    var ending;
    ending, request := ParseFirstLine(it);
    if ending == Done {
      ending := SkipHeaderLines(it, past);
    }
    rc := match ending case Done => 0 case Incomplete => 1 case Failed => -1;
  }

  /** toBuffer appends the printed request. */
  method ToBuffer(r: Request, out: Buffer)
    requires out.Valid()
    modifies out
    ensures out.Valid() && out.Contents() == old(out.Contents()) + Print(r)
  {
    hide CStr, Print, Buffer.Valid, Buffer.Contents;
    PrintedParts(out.Contents(), r);
    out.Write(CStr(r.verb));
    out.Write(" ");
    out.Write(CStr(r.address));
    out.Write(" ");
    out.Write(CStr(r.version));
    out.Write("\r\n\r\n");
  }

  lemma PrintedParts(c: seq<char>, r: Request)
    ensures c + CStr(r.verb) + " " + CStr(r.address) + " " + CStr(r.version) + "\r\n\r\n" == c + Print(r)
  {
    hide CStr;
  }
}
