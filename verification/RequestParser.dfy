/** The incremental request parser (source/request_parser.cpp): a header phase on the first read, a
    body phase on every later one. */
module RequestParser {
  import opened Text
  import Requests

  /** boost::tribool: a finished request, a bad one, or more data needed. */
  datatype Verdict = Complete | Bad | More

  /** What the parser keeps in the request between reads (header/request.h). `fields` are the seven
      JSON strings, once extracted. */
  datatype State = State(readHeader: bool, contentLength: nat, readAmount: nat, jsonRequest: string,
                         fields: Option<Requests.Request>)

  const FRESH := State(true, 0, 0, "", None)

  /** JSON extraction: None when the text does not parse or lacks username, password or requestid. */
  type Json = string -> Option<Requests.Request>

  type TokenId = j: nat | j < 10

  /** The ten recognised header tokens. */
  function Token(j: TokenId): string {
    match j
    case 0 => "Content-Type: "
    case 1 => "User-Agent: "
    case 2 => "Host: "
    case 3 => "Connection: "
    case 4 => "Accept-Encoding: "
    case 5 => "Content-Length: "
    case 6 => "Accept-Language: "
    case 7 => "Accept: "
    case 8 => "Pragma: "
    case 9 => "Cache-Control: "
  }

  const CONTENT_LENGTH: nat := 5
  const POST := "POST / HTTP/1.1"

  // ---------- the header phase ----------

  /** What follows the first ": " of a line. */
  function AfterColon(line: string): string {
    if |line| < 2 then ""
    else if line[0] == ':' && line[1] == ' ' then line[2..]
    else AfterColon(line[1..])
  }

  /** The headers after looking at one line for tokens below `n`; a token seen before keeps its value. */
  function ScanLine(line: string, n: nat, headers: map<nat, string>): map<nat, string>
    requires n <= 10
  {
    if n == 0 then headers
    else
      var found := ScanLine(line, n - 1, headers);
      if Contains(line, Token(n - 1)) && n - 1 !in found then found[n - 1 := AfterColon(line)] else found
  }

  /** The headers in the first `n` of these lines. */
  function ScanLines(lines: seq<string>, n: nat): map<nat, string>
    requires n <= |lines|
  {
    if n == 0 then map[] else ScanLine(lines[n - 1], 10, ScanLines(lines, n - 1))
  }

  function Min(a: int, b: int): int {
    if a < b then a else b
  }

  /** The headers of a request: from the eleven lines after the request line, at most. */
  function HeadersOf(lines: seq<string>): map<nat, string>
    requires lines != []
  {
    ScanLines(lines[1..], Min(|lines| - 1, 11))
  }

  function Joined(lines: seq<string>): string {
    if lines == [] then "" else Joined(lines[..|lines| - 1]) + lines[|lines| - 1]
  }

  /** `size_t x = stoi(...)`: a negative number becomes a huge one. */
  function ToSize(n: int): nat
    requires INT_MIN <= n <= INT_MAX
  {
    if n < 0 then n + 0x1_0000_0000_0000_0000 else n
  }

  /** The declared length and the rest of the first read, or None for a bad request. */
  function HeaderPhase(input: string): Option<(nat, string)>
    requires input != ""
  {
    var lines := Lines(input);
    var headers := HeadersOf(lines);
    if !(POST <= lines[0]) || CONTENT_LENGTH !in headers then None
    else
      match Stoi(headers[CONTENT_LENGTH])
      case None => None
      case Some(n) => Some((ToSize(n), Joined(lines[Min(|headers| + 1, |lines|)..])))
  }

  // ---------- one read ----------

  function Extract(st: State, json: Json): (State, Verdict) {
    match json(st.jsonRequest)
    case None => (st, Bad)
    case Some(fields) => (st.(fields := Some(fields)), Complete)
  }

  function ParseStep(st: State, input: string, json: Json): (State, Verdict)
    requires st.readHeader ==> input != ""
  {
    if st.readHeader then
      match HeaderPhase(input)
      case None => (st, Bad)
      case Some((length, rest)) =>
        var next := State(false, length, st.readAmount + |rest|, st.jsonRequest + rest, st.fields);
        if length > next.readAmount then (next, More) else Extract(next, json)
    else
      var next := st.(readAmount := st.readAmount + |input|, jsonRequest := st.jsonRequest + input);
      if input != "" && next.readAmount < st.contentLength then (next, More) else Extract(next, json)
  }

  /** The request object the parser fills in. */
  class Request {
    var readHeader: bool
    var contentLength: nat
    var readAmount: nat
    var jsonRequest: string
    var fields: Option<Requests.Request>

    constructor ()
      ensures Now() == FRESH
    {
      readHeader, contentLength, readAmount, jsonRequest, fields := true, 0, 0, "", None;
    }

    function Now(): State
      reads this
    {
      State(readHeader, contentLength, readAmount, jsonRequest, fields)
    }
  }

  lemma AfterColonIs(line: string, k: nat)
    requires OccursAt(line, ": ", k) && forall i :: 0 <= i < k ==> !OccursAt(line, ": ", i)
    ensures AfterColon(line) == line[k + 2..]
    decreases |line|
  {
    if k == 0 {
      assert line[0..2] == ": ";
      assert line[0] == line[0..2][0] && line[1] == line[0..2][1];
    } else {
      assert !OccursAt(line, ": ", 0);
      assert line[0..2] == [line[0], line[1]];
      assert OccursAt(line[1..], ": ", k - 1) by { assert line[1..][k - 1..k + 1] == line[k..k + 2]; }
      forall i | 0 <= i < k - 1 ensures !OccursAt(line[1..], ": ", i) {
        assert line[1..][i..i + 2] == line[i + 1..i + 3];
        assert !OccursAt(line, ": ", i + 1);
      }
      AfterColonIs(line[1..], k - 1);
    }
  }

  lemma TokenEnds(j: TokenId)
    ensures |Token(j)| >= 2 && Token(j)[|Token(j)| - 2..] == ": "
  {
  }

  lemma TokenHasColon(line: string, j: TokenId)
    requires Contains(line, Token(j))
    ensures Contains(line, ": ")
  {
    var i :| 0 <= i <= |line| && OccursAt(line, Token(j), i);
    var n := |Token(j)|;
    TokenEnds(j);
    hide Token;
    assert line[i + n - 2..i + n] == line[i..i + n][n - 2..];
    assert OccursAt(line, ": ", i + n - 2);
  }

  /** request_parser::parser (source/request_parser.cpp:31-195). */
  method Parser(req: Request, input: string, json: Json) returns (result: Verdict)
    requires req.readHeader ==> input != ""
    modifies req
    ensures (req.Now(), result) == ParseStep(old(req.Now()), input, json)
  {
    hide Lines, HeadersOf, Stoi, Joined;
    if req.readHeader {
      var inputVctr := Lines(input);
      if !(POST <= inputVctr[0]) {
        return Bad;
      }
      var httpHeaders := ReadHeaders(inputVctr);
      if CONTENT_LENGTH !in httpHeaders {
        return Bad;
      }
      var number := Stoi(httpHeaders[CONTENT_LENGTH]);
      if number.None? {
        return Bad;
      }
      req.contentLength := ToSize(number.value);
      ReadRest(req, inputVctr, |httpHeaders| + 1);
      req.readHeader := false;
      if req.contentLength > req.readAmount {
        return More;
      }
    } else {
      req.readAmount := req.readAmount + |input|;
      req.jsonRequest := req.jsonRequest + input;
      if |input| != 0 && req.readAmount < req.contentLength {
        return More;
      }
    }
    var root := json(req.jsonRequest);
    if root.None? {
      return Bad;
    }
    req.fields := root;
    return Complete;
  }

  /** The loop over the lines behind the headers (source/request_parser.cpp:106-120). */
  method ReadRest(req: Request, lines: seq<string>, from: nat)
    modifies req
    ensures var rest := Joined(lines[Min(from, |lines|)..]);
      req.Now() == old(req.Now()).(readAmount := old(req.readAmount) + |rest|,
                               jsonRequest := old(req.jsonRequest) + rest)
  {
    var start := Min(from, |lines|);
    ghost var done: string := "";
    for i := start to |lines|
      invariant done == Joined(lines[start..i])
      invariant req.jsonRequest == old(req.jsonRequest) + done && req.readAmount == old(req.readAmount) + |done|
      invariant req.readHeader == old(req.readHeader) && req.contentLength == old(req.contentLength)
      invariant req.fields == old(req.fields)
    {
      assert lines[start..i + 1][..i - start] == lines[start..i];
      req.readAmount := req.readAmount + |lines[i]|;
      req.jsonRequest := req.jsonRequest + lines[i];
      done := done + lines[i];
    }
    assert lines[start..|lines|] == lines[start..];
  }

  /** The two nested loops over lines and tokens (source/request_parser.cpp:66-79). */
  method ReadHeaders(lines: seq<string>) returns (headers: map<nat, string>)
    requires lines != []
    ensures headers == HeadersOf(lines)
  {
    headers := map[];
    var i := 1;
    while i < |lines| && i < 12
      invariant 1 <= i <= |lines| && i <= 12
      invariant headers == ScanLines(lines[1..], i - 1)
    {
      headers := ReadTokens(lines[i], headers);
      i := i + 1;
    }
  }

  method ReadTokens(line: string, before: map<nat, string>) returns (headers: map<nat, string>)
    ensures headers == ScanLine(line, 10, before)
  {
    hide Token, Contains, AfterColon;
    headers := before;
    for j := 0 to 10
      invariant headers == ScanLine(line, j, before)
    {
      var delimPos := Find(line, Token(j));
      if delimPos.Some? {
        TokenHasColon(line, j);
        var splitPos := Find(line, ": ");
        AfterColonIs(line, splitPos.value);
        var tempstr := line[splitPos.value + 2..];
        if j !in headers {
          headers := headers[j := tempstr];
        }
      }
    }
  }

  // ---------- chunking ----------

  /** The reads after the first: the state they leave and each one's verdict. */
  function Feed(st: State, chunks: seq<string>, json: Json): (State, seq<Verdict>)
    requires !st.readHeader
    ensures var (after, verdicts) := Feed(st, chunks, json); !after.readHeader && |verdicts| == |chunks|
  {
    if chunks == [] then (st, [])
    else
      var (before, verdicts) := Feed(st, chunks[..|chunks| - 1], json);
      var (after, verdict) := ParseStep(before, chunks[|chunks| - 1], json);
      (after, verdicts + [verdict])
  }

  /** From the first read on, the amount read is the length of the text kept. */
  lemma AmountIsLength(st: State, input: string, json: Json)
    requires st.readHeader ==> input != ""
    requires st.readAmount == |st.jsonRequest|
    ensures var after := ParseStep(st, input, json).0; after.readAmount == |after.jsonRequest|
  {
    hide HeaderPhase;
  }

  /** While data is missing, a nonempty read either finishes the request or leaves strictly less. */
  lemma EachReadMakesProgress(st: State, input: string, json: Json)
    requires !st.readHeader && st.readAmount < st.contentLength && input != ""
    ensures var (after, verdict) := ParseStep(st, input, json);
      && (verdict == More <==> st.readAmount + |input| < st.contentLength)
      && (verdict == More ==> 0 < after.contentLength - after.readAmount < st.contentLength - st.readAmount)
      && after.contentLength == st.contentLength
  {
  }

  lemma {:induction false} JoinedAppend(a: seq<string>, b: seq<string>)
    ensures Joined(a + b) == Joined(a) + Joined(b)
  {
    if b == [] {
      assert a + b == a;
    } else {
      JoinedAppend(a, b[..|b| - 1]);
      assert (a + b)[..|a + b| - 1] == a + b[..|b| - 1];
    }
  }

  predicate AllNonempty(chunks: seq<string>) {
    forall i :: 0 <= i < |chunks| ==> chunks[i] != ""
  }

  lemma {:induction false} FeedWaits(st: State, chunks: seq<string>, json: Json)
    requires !st.readHeader
    requires AllNonempty(chunks)
    requires st.readAmount + |Joined(chunks)| < st.contentLength
    ensures var (after, verdicts) := Feed(st, chunks, json);
      && after == st.(readAmount := st.readAmount + |Joined(chunks)|, jsonRequest := st.jsonRequest + Joined(chunks))
      && forall i :: 0 <= i < |verdicts| ==> verdicts[i] == More
  {
    if chunks != [] {
      var last := chunks[|chunks| - 1];
      assert chunks == chunks[..|chunks| - 1] + [last];
      FeedWaits(st, chunks[..|chunks| - 1], json);
    }
  }

  /** Independence of chunking: after a first read that asked for more, a tail of exactly the missing
      length, cut into nonempty reads in any way, is answered More until its last read, which decides
      on the same text every time. */
  lemma ChunkingIndependent(st: State, chunks: seq<string>, json: Json)
    requires !st.readHeader && chunks != []
    requires AllNonempty(chunks)
    requires st.readAmount + |Joined(chunks)| == st.contentLength
    ensures var whole := st.(readAmount := st.contentLength, jsonRequest := st.jsonRequest + Joined(chunks));
      var (after, verdicts) := Feed(st, chunks, json);
      && (after, verdicts[|chunks| - 1]) == Extract(whole, json)
      && verdicts[|chunks| - 1] != More
      && forall i :: 0 <= i < |chunks| - 1 ==> verdicts[i] == More
  {
    var before, last := chunks[..|chunks| - 1], chunks[|chunks| - 1];
    assert chunks == before + [last];
    assert last != "" && Joined(chunks) == Joined(before) + last;
    FeedWaits(st, before, json);
    hide Joined, HeaderPhase;
    var (b, vs) := Feed(st, before, json);
    LastRead(st, b, Joined(before), last, json);
    var (after, verdict) := ParseStep(b, last, json);
    assert Feed(st, chunks, json) == (after, vs + [verdict]);
    hide Extract, ParseStep;
  }

  lemma LastRead(st: State, b: State, text: string, last: string, json: Json)
    requires !st.readHeader && last != ""
    requires b == st.(readAmount := st.readAmount + |text|, jsonRequest := st.jsonRequest + text)
    requires st.readAmount + |text| + |last| == st.contentLength
    ensures ParseStep(b, last, json) ==
            Extract(st.(readAmount := st.contentLength, jsonRequest := st.jsonRequest + (text + last)), json)
    ensures ParseStep(b, last, json).1 != More
  {
    assert st.jsonRequest + text + last == st.jsonRequest + (text + last);
  }

  // ---------- what is recognised and what is refused ----------

  /** Line `i` is the first of these to hold the token. */
  ghost predicate FirstWith(lines: seq<string>, i: nat, j: TokenId) {
    i < |lines| && Contains(lines[i], Token(j)) && forall k :: 0 <= k < i ==> !Contains(lines[k], Token(j))
  }

  lemma {:induction false} ScanLineMeans(line: string, n: nat, headers: map<nat, string>, j: TokenId)
    requires n <= 10
    ensures j in ScanLine(line, n, headers) <==> j in headers || (j < n && Contains(line, Token(j)))
    ensures j in headers ==> ScanLine(line, n, headers)[j] == headers[j]
    ensures j !in headers && j < n && Contains(line, Token(j)) ==> ScanLine(line, n, headers)[j] == AfterColon(line)
  {
    hide Contains, Token, AfterColon;
    if n > 0 {
      ScanLineMeans(line, n - 1, headers, j);
    }
  }

  lemma {:induction false} ScanLinesMeans(lines: seq<string>, n: nat, j: TokenId)
    requires n <= |lines|
    ensures j in ScanLines(lines, n) <==> exists i :: 0 <= i < n && FirstWith(lines, i, j)
    ensures forall i :: 0 <= i < n && FirstWith(lines, i, j) ==>
              (j in ScanLines(lines, n) && ScanLines(lines, n)[j] == AfterColon(lines[i]))
  {
    hide Contains, Token, AfterColon, ScanLine;
    if n > 0 {
      ScanLinesMeans(lines, n - 1, j);
      ScanLineMeans(lines[n - 1], 10, ScanLines(lines, n - 1), j);
      if Contains(lines[n - 1], Token(j)) && j !in ScanLines(lines, n - 1) {
        NoneBefore(lines, n - 1, j);
        assert FirstWith(lines, n - 1, j);
      }
    }
  }

  lemma {:induction false} NoneBefore(lines: seq<string>, n: nat, j: TokenId)
    requires n <= |lines| && forall i :: 0 <= i < n ==> !FirstWith(lines, i, j)
    ensures forall k :: 0 <= k < n ==> !Contains(lines[k], Token(j))
  {
    hide Contains, Token;
    if n > 0 {
      NoneBefore(lines, n - 1, j);
      assert !FirstWith(lines, n - 1, j);
    }
  }

  /** The headers of a request: a token is recognised exactly when one of the eleven lines behind the
      request line holds it, and its value is what follows the first ": " of the first such line. */
  lemma HeadersMeaning(lines: seq<string>, j: TokenId)
    requires lines != []
    ensures j in HeadersOf(lines) <==> exists i :: 0 <= i < Min(|lines| - 1, 11) && FirstWith(lines[1..], i, j)
    ensures forall i :: 0 <= i < Min(|lines| - 1, 11) && FirstWith(lines[1..], i, j) ==>
              (j in HeadersOf(lines) && HeadersOf(lines)[j] == AfterColon(lines[1..][i]))
  {
    ScanLinesMeans(lines[1..], Min(|lines| - 1, 11), j);
    hide FirstWith, ScanLines, AfterColon;
  }

  /** A first read is refused if it does not begin with the request line, ... */
  lemma NoPostIsBad(input: string, json: Json)
    requires input != "" && !("POST / HTTP/1.1" <= Lines(input)[0])
    ensures ParseStep(FRESH, input, json) == (FRESH, Bad)
  {
    hide Lines, HeadersOf, Stoi, Joined;
  }

  /** ... if none of its first twelve lines gives a length, ... */
  lemma NoLengthIsBad(input: string, json: Json)
    requires input != ""
    requires forall i :: 1 <= i < |Lines(input)| && i < 12 ==> !Contains(Lines(input)[i], "Content-Length: ")
    ensures ParseStep(FRESH, input, json) == (FRESH, Bad)
  {
    NoLengthHeader(Lines(input));
    hide Lines, HeadersOf, Stoi, Joined, Contains;
  }

  lemma NoLengthHeader(lines: seq<string>)
    requires lines != [] && forall i :: 1 <= i < |lines| && i < 12 ==> !Contains(lines[i], "Content-Length: ")
    ensures CONTENT_LENGTH !in HeadersOf(lines)
  {
    HeadersMeaning(lines, CONTENT_LENGTH);
    hide HeadersOf, Contains;
    forall i | 0 <= i < Min(|lines| - 1, 11)
      ensures !FirstWith(lines[1..], i, CONTENT_LENGTH)
    {
      assert lines[1..][i] == lines[i + 1];
    }
  }

  /** ... or if the length it gives is no number. A negative one is taken for a huge one: more data is
      asked for, for ever. */
  lemma LengthDecides(input: string, json: Json)
    requires input != "" && "POST / HTTP/1.1" <= Lines(input)[0] && CONTENT_LENGTH in HeadersOf(Lines(input))
    ensures var lines := Lines(input);
      var rest := Joined(lines[Min(|HeadersOf(lines)| + 1, |lines|)..]);
      match Stoi(HeadersOf(lines)[CONTENT_LENGTH])
      case None => ParseStep(FRESH, input, json) == (FRESH, Bad)
      case Some(n) => n < 0 && |rest| < 0x8000_0000 ==> ParseStep(FRESH, input, json).1 == More
  {
    hide Lines, HeadersOf, Stoi, Joined;
  }

  /** The ten names the source lists (source/request_parser.cpp:27-29). */
  lemma TokenNames()
    ensures Token(0) == "Content-Type: " && Token(1) == "User-Agent: " && Token(2) == "Host: "
    ensures Token(3) == "Connection: " && Token(4) == "Accept-Encoding: " && Token(5) == "Content-Length: "
    ensures Token(6) == "Accept-Language: " && Token(7) == "Accept: " && Token(8) == "Pragma: "
    ensures Token(9) == "Cache-Control: "
  {
  }
}
