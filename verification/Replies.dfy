/** HTTP replies (source/reply.cpp) and how a client reads one back (sections 6 and 10.4 of RFC 1945). */
module Replies {
  import opened Text

  datatype Header = Header(name: string, value: string)

  datatype Reply = Reply(status: int, headers: seq<Header>, content: string)

  function SuccessText(status: int): string {
    match status
    case 201 => "201 Created"
    case 202 => "202 Accepted"
    case 204 => "204 No Content"
    case _ => "200 OK"
  }

  function RedirectText(status: int): string {
    match status
    case 300 => "300 Multiple Choices"
    case 301 => "301 Moved Permanently"
    case 302 => "302 Moved Temporarily"
    case _ => "304 Not Modified"
  }

  function ClientErrorText(status: int): string {
    match status
    case 400 => "400 Bad Request"
    case 401 => "401 Unauthorized"
    case 403 => "403 Forbidden"
    case _ => "404 Not Found"
  }

  function ServerErrorText(status: int): string {
    match status
    case 501 => "501 Not Implemented"
    case 502 => "502 Bad Gateway"
    case 503 => "503 Service Unavailable"
    case _ => "500 Internal Server Error"
  }

  /** Code and reason of the status line. Unknown codes, 999 among them, count as 500; the JSON result
      codes as 200. */
  function StatusText(status: int): string {
    match status
    case 200 | 201 | 202 | 204 => SuccessText(status)
    case 300 | 301 | 302 | 304 => RedirectText(status)
    case 400 | 401 | 403 | 404 => ClientErrorText(status)
    case _ => if 1000 <= status <= 1013 then "200 OK" else ServerErrorText(status)
  }

  function StatusLine(status: int): string {
    "HTTP/1.0 " + StatusText(status)
  }

  function Page(title: string, heading: string): string {
    "<html><head><title>" + title + "</title></head><body><h1>" + heading + "</h1></body></html>"
  }

  lemma PageShowsHeading(title: string, heading: string)
    ensures Contains(Page(title, heading), heading)
  {
    var before := "<html><head><title>" + title + "</title></head><body><h1>";
    var after := "</h1></body></html>";
    assert Page(title, heading) == before + heading + after;
    OccursBetween(before, heading, after);
  }

  lemma OccursBetween(before: string, text: string, after: string)
    ensures Contains(before + text + after, text)
  {
    assert (before + text + after)[|before|..|before| + |text|] == text;
    assert OccursAt(before + text + after, text, |before|);
  }

  function StockContent(status: int): string {
    match status
    case 200 => ""
    case 201 => Page("Created", "201 Created")
    case 202 => Page("Accepted", "202 Accepted")
    case 204 => Page("No Content", "204 Content")
    case 300 => Page("Multiple Choices", "300 Multiple Choices")
    case 301 => Page("Moved Permanently", "301 Moved Permanently")
    case 302 => Page("Moved Temporarily", "302 Moved Temporarily")
    case 304 => Page("Not Modified", "304 Not Modified")
    case 400 => Page("Bad Request", "400 Bad Request")
    case 401 => Page("Unauthorized", "401 Unauthorized")
    case 403 => Page("Forbidden", "403 Forbidden")
    case 404 => Page("Not Found", "404 Not Found")
    case 500 => Page("Internal Server Error", "500 Internal Server Error")
    case 501 => Page("Not Implemented", "501 Not Implemented")
    case 502 => Page("Bad Gateway", "502 Bad Gateway")
    case 503 => Page("Service Unavailable", "503 Service Unavailable")
    case _ => Page("Internal Server Error", "500 Internal Server Error")
  }

  /** The page of an HTTP status shows the status line's code and reason, but for 200, whose page is
      empty, and 204, whose page says "204 Content". */
  lemma PageNamesStatus(status: int)
    requires status != 200 && status != 204 && !(1000 <= status <= 1013)
    ensures Contains(StockContent(status), StatusText(status))
  {
    hide Contains, Page;
    forall title: string, heading: string
      ensures Contains(Page(title, heading), heading)
    {
      PageShowsHeading(title, heading);
    }
  }

  function JsonContent(status: int): string {
    "{\"RESULT\": \"" + Decimal(if 1000 <= status <= 1013 then status else 999) + "\"}"
  }

  const CRLF := "\r\n"

  // ---------- what is sent ----------

  /** The bytes of a reply: status line, header lines, an empty line, the content. */
  function Render(r: Reply): string {
    StatusLine(r.status) + CRLF + RenderHeaders(r.headers, CRLF + r.content)
  }

  function HeaderLine(h: Header): string {
    h.name + ": " + h.value + CRLF
  }

  function RenderHeaders(headers: seq<Header>, rest: string): string {
    if headers == [] then rest else HeaderLine(headers[0]) + RenderHeaders(headers[1..], rest)
  }

  function Concat(buffers: seq<string>): string {
    if buffers == [] then "" else Concat(buffers[..|buffers| - 1]) + buffers[|buffers| - 1]
  }

  lemma ConcatPush(buffers: seq<string>, b: string)
    ensures Concat(buffers + [b]) == Concat(buffers) + b
  {
    assert (buffers + [b])[..|buffers|] == buffers;
  }

  lemma ConcatHeader(buffers: seq<string>, h: Header)
    ensures Concat(buffers + [h.name] + [": "] + [h.value] + [CRLF]) == Concat(buffers) + HeaderLine(h)
  {
    ConcatPush(buffers, h.name);
    ConcatPush(buffers + [h.name], ": ");
    ConcatPush(buffers + [h.name] + [": "], h.value);
    ConcatPush(buffers + [h.name] + [": "] + [h.value], CRLF);
    hide Concat;
    assert Concat(buffers) + h.name + ": " + h.value + CRLF == Concat(buffers) + (h.name + ": " + h.value + CRLF);
  }

  /** reply::to_buffers (source/reply.cpp:115-130): the buffers, end to end, are the reply's bytes. */
  method ToBuffers(r: Reply) returns (buffers: seq<string>)
    ensures Concat(buffers) == Render(r)
    ensures |buffers| == 3 + 4 * |r.headers|
  {
    hide Concat, HeaderLine, StatusLine;
    buffers := [StatusLine(r.status) + CRLF];
    ConcatPush([], StatusLine(r.status) + CRLF);
    assert [] + buffers == buffers;
    ghost var tail := CRLF + r.content;
    ConcatNothing();
    for i := 0 to |r.headers|
      invariant |buffers| == 1 + 4 * i
      invariant Concat(buffers) + RenderHeaders(r.headers[i..], tail) == Render(r)
    {
      var h := r.headers[i];
      ghost var before := Concat(buffers);
      ConcatHeader(buffers, h);
      buffers := buffers + [h.name];
      buffers := buffers + [": "];
      buffers := buffers + [h.value];
      buffers := buffers + [CRLF];
      assert r.headers[i..][1..] == r.headers[i + 1..] && r.headers[i..][0] == h;
      ghost var rest := RenderHeaders(r.headers[i + 1..], tail);
      assert before + (HeaderLine(h) + rest) == before + HeaderLine(h) + rest;
    }
    assert r.headers[|r.headers|..] == [];
    ghost var before := Concat(buffers);
    ConcatPush(buffers, CRLF);
    buffers := buffers + [CRLF];
    ConcatPush(buffers, r.content);
    buffers := buffers + [r.content];
    assert before + CRLF + r.content == before + tail;
  }

  lemma ConcatNothing()
    ensures Concat([]) == ""
  {
  }

  // ---------- reading a reply back ----------

  /** The text before the first CRLF, and what follows it. */
  function CutLine(s: string): (r: Option<(string, string)>)
    ensures r.Some? ==> |r.value.0| + 2 + |r.value.1| == |s|
  {
    if |s| < 2 then None
    else if s[0] == '\r' && s[1] == '\n' then Some(("", s[2..]))
    else
      match CutLine(s[1..])
      case None => None
      case Some((line, rest)) => Some(([s[0]] + line, rest))
  }

  /** A header line, cut at its first ": ". */
  function CutHeader(line: string): Option<Header> {
    if |line| < 2 then None
    else if line[0] == ':' && line[1] == ' ' then Some(Header("", line[2..]))
    else
      match CutHeader(line[1..])
      case None => None
      case Some(h) => Some(Header([line[0]] + h.name, h.value))
  }

  /** Header lines up to the empty line, and the content after it. */
  function ParseHeaders(s: string): Option<(seq<Header>, string)>
    decreases |s|
  {
    match CutLine(s)
    case None => None
    case Some((line, rest)) =>
      if line == "" then Some(([], rest))
      else
        match CutHeader(line)
        case None => None
        case Some(h) =>
          match ParseHeaders(rest)
          case None => None
          case Some((headers, content)) => Some(([h] + headers, content))
  }

  /** A full response: its status line, headers and content. */
  function ParseReply(s: string): Option<(string, seq<Header>, string)> {
    match CutLine(s)
    case None => None
    case Some((line, rest)) =>
      match ParseHeaders(rest)
      case None => None
      case Some((headers, content)) => Some((line, headers, content))
  }

  /** Fields that cannot be mistaken for the syntax around them. */
  predicate PlainHeader(h: Header) {
    h.name != "" && ':' !in h.name && '\r' !in h.name && '\r' !in h.value
  }

  lemma {:induction false} CutLineAt(line: string, rest: string)
    requires '\r' !in line
    ensures CutLine(line + CRLF + rest) == Some((line, rest))
    decreases |line|
  {
    var s := line + CRLF + rest;
    if line == "" {
      assert s[0] == '\r' && s[1] == '\n' && s[2..] == rest;
    } else {
      CutLineAt(line[1..], rest);
      assert s[1..] == line[1..] + CRLF + rest;
      assert s[0] == line[0] && line[0] in line;
      assert [line[0]] + line[1..] == line;
    }
  }

  lemma {:induction false} CutHeaderAt(name: string, value: string)
    requires ':' !in name
    ensures CutHeader(name + ": " + value) == Some(Header(name, value))
    decreases |name|
  {
    var s := name + ": " + value;
    if name == "" {
      assert s[0] == ':' && s[1] == ' ' && s[2..] == value;
    } else {
      CutHeaderAt(name[1..], value);
      assert s[1..] == name[1..] + ": " + value;
      assert s[0] == name[0] && name[0] in name;
      assert [name[0]] + name[1..] == name;
    }
  }

  lemma {:induction false} HeadersReadBack(headers: seq<Header>, content: string)
    requires forall h <- headers :: PlainHeader(h)
    ensures ParseHeaders(RenderHeaders(headers, CRLF + content)) == Some((headers, content))
    decreases |headers|
  {
    if headers == [] {
      CutLineAt("", content);
      assert "" + CRLF + content == CRLF + content;
    } else {
      var h, rest := headers[0], RenderHeaders(headers[1..], CRLF + content);
      assert PlainHeader(h);
      HeadersReadBack(headers[1..], content);
      var line := h.name + ": " + h.value;
      assert HeaderLine(h) + rest == line + CRLF + rest;
      CutLineAt(line, rest);
      CutHeaderAt(h.name, h.value);
      hide CutLine, CutHeader;
      assert [h] + headers[1..] == headers;
    }
  }

  lemma SuccessTextIsPlain(status: int)
    ensures '\r' !in SuccessText(status)
  {
  }

  lemma RedirectTextIsPlain(status: int)
    ensures '\r' !in RedirectText(status)
  {
  }

  lemma ClientErrorTextIsPlain(status: int)
    ensures '\r' !in ClientErrorText(status)
  {
  }

  lemma ServerErrorTextIsPlain(status: int)
    ensures '\r' !in ServerErrorText(status)
  {
  }

  lemma StatusLineIsPlain(status: int)
    ensures '\r' !in StatusLine(status)
  {
    SuccessTextIsPlain(status);
    RedirectTextIsPlain(status);
    ClientErrorTextIsPlain(status);
    ServerErrorTextIsPlain(status);
    hide SuccessText, RedirectText, ClientErrorText, ServerErrorText;
  }

  /** The number a client finds in the status line: the status itself if it is an HTTP status the server
      knows, 200 for a result code, and else 500. */
  function StatusNumber(status: int): int {
    if status in {200, 201, 202, 204, 300, 301, 302, 304, 400, 401, 403, 404, 500, 501, 502, 503} then status
    else if 1000 <= status <= 1013 then 200 else 500
  }

  function StatusNumberIn(line: string): Option<int> {
    if "HTTP/1.0 " <= line then Stoi(line[|"HTTP/1.0 "|..]) else None
  }

  lemma ThreeDigits(n: nat, rest: string)
    requires 100 <= n < 1000 && (rest == "" || !IsDigit(rest[0]))
    ensures Stoi([Digit(n / 100), Digit(n / 10 % 10), Digit(n % 10)] + rest) == Some(n)
  {
    assert Decimal(n / 10) == [Digit(n / 100), Digit(n / 10 % 10)];
    assert Decimal(n) == [Digit(n / 100), Digit(n / 10 % 10), Digit(n % 10)];
    StoiReadsInt(n, rest);
  }

  function Digit(d: nat): char
    requires d < 10
  {
    ('0' as int + d) as char
  }

  lemma ReasonFollows(status: int, text: string, n: nat)
    requires 100 <= n < 1000 && |text| > 3 && text[3] == ' '
    requires text[0] == Digit(n / 100) && text[1] == Digit(n / 10 % 10) && text[2] == Digit(n % 10)
    ensures StatusNumberIn("HTTP/1.0 " + text) == Some(n)
  {
    ThreeDigits(n, text[3..]);
    assert text == [text[0], text[1], text[2]] + text[3..];
    hide Stoi;
    assert ("HTTP/1.0 " + text)[|"HTTP/1.0 "|..] == text;
  }

  /** The status line names the status. */
  lemma StatusReadsBack(status: int)
    ensures StatusNumberIn(StatusLine(status)) == Some(StatusNumber(status))
  {
    hide Stoi, StatusNumberIn;
    ReasonFollows(status, StatusText(status), StatusNumber(status));
  }

  /** Whatever its content holds, a reply with plain headers reads back as itself. */
  lemma ReplyReadsBack(r: Reply)
    requires forall h <- r.headers :: PlainHeader(h)
    ensures ParseReply(Render(r)) == Some((StatusLine(r.status), r.headers, r.content))
  {
    StatusLineIsPlain(r.status);
    var rest := RenderHeaders(r.headers, CRLF + r.content);
    CutLineAt(StatusLine(r.status), rest);
    HeadersReadBack(r.headers, r.content);
    hide CutLine, StatusLine;
  }

  // ---------- the replies of the server ----------

  /** Exactly the two headers the server sets, with the content's own length. */
  predicate Framed(r: Reply) {
    && |r.headers| == 2
    && r.headers[0] == Header("Content-Length", Decimal(|r.content|))
    && r.headers[1].name == "Content-Type"
    && r.headers[1].value in ["application/json", "text/html"]
  }

  /** reply::stock_reply (source/reply.cpp:307-318). */
  method StockReply(status: int) returns (rep: Reply)
    ensures Framed(rep) && rep == SetHeaders(Reply(status, [], StockContent(status)), "text/html")
  {
    rep := Reply(status, [], StockContent(status));
    rep := SetHeaders(rep, "text/html");
  }

  /** reply::json_reply (source/reply.cpp:320-331). */
  method JsonReply(status: int) returns (rep: Reply)
    ensures Framed(rep) && rep.status == 200 && rep.content == JsonContent(status)
    ensures rep.headers[1].value == "application/json"
  {
    rep := Reply(200, [], JsonContent(status));
    rep := SetHeaders(rep, "application/json");
  }

  /** The header assignments all three reply builders end with: resize to two, then set both. */
  function SetHeaders(rep: Reply, contentType: string): Reply {
    rep.(headers := [Header("Content-Length", Decimal(|rep.content|)), Header("Content-Type", contentType)])
  }

  lemma FramedIsPlain(r: Reply)
    requires Framed(r)
    ensures forall h <- r.headers :: PlainHeader(h)
  {
    var digits := Decimal(|r.content|);
    assert forall c <- digits :: IsDigit(c);
    assert r.headers == [r.headers[0], r.headers[1]];
  }

  /** Framing: the buffers of any reply the server builds, whatever text it carries, read back as its
      status line, exactly two headers and the content, and the first header is the content's length. */
  lemma FramedRepliesReadBack(r: Reply, buffers: seq<string>)
    requires Framed(r) && Concat(buffers) == Render(r)
    ensures ParseReply(Concat(buffers)) == Some((StatusLine(r.status), r.headers, r.content))
    ensures AllDigits(r.headers[0].value) && Value(r.headers[0].value) == |r.content|
  {
    FramedIsPlain(r);
    ReplyReadsBack(r);
    DecimalValue(|r.content|);
  }
}
