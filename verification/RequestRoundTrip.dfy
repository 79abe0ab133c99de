/** Printing a request and parsing it in one read (sections 3 and 3.3.2 of RFC 7230). */
module RequestRoundTrip {
  import opened Text
  import opened RequestParser

  /** A header to print: one of the ten tokens, and a value. */
  datatype Field = Field(token: TokenId, value: string)

  function HeaderLine(f: Field): string {
    Token(f.token) + f.value + "\r"
  }

  predicate PlainField(f: Field) {
    '\n' !in f.value && !Contains(f.value, ": ")
  }

  /** Distinct recognised headers with plain values. */
  ghost predicate PlainFields(fields: seq<Field>) {
    && (forall i :: 0 <= i < |fields| ==> PlainField(fields[i]))
    && (forall i, j :: 0 <= i < j < |fields| ==> fields[i].token != fields[j].token)
  }

  function PrintFields(fields: seq<Field>, rest: string): string {
    if fields == [] then rest else HeaderLine(fields[0]) + "\n" + PrintFields(fields[1..], rest)
  }

  function Print(fields: seq<Field>, body: string): string {
    POST + "\r" + "\n" + PrintFields(fields, "\r" + "\n" + body)
  }

  ghost predicate PlainBody(body: string) {
    '\n' !in body && forall j: TokenId :: !Contains(body, Token(j))
  }

  // ---------- lines ----------

  function FieldLines(fields: seq<Field>): (lines: seq<string>)
    ensures |lines| == |fields|
    ensures forall i :: 0 <= i < |fields| ==> lines[i] == HeaderLine(fields[i])
  {
    if fields == [] then [] else [HeaderLine(fields[0])] + FieldLines(fields[1..])
  }

  lemma TokenHasNoNewline(j: TokenId)
    ensures '\n' !in Token(j)
  {
  }

  lemma HeaderIsOneLine(f: Field)
    requires PlainField(f)
    ensures '\n' !in HeaderLine(f)
  {
    TokenHasNoNewline(f.token);
    hide Token, Contains;
  }

  lemma {:induction false} PrintedLines(fields: seq<Field>, rest: string)
    requires forall i :: 0 <= i < |fields| ==> PlainField(fields[i])
    ensures Lines(PrintFields(fields, rest)) == FieldLines(fields) + Lines(rest)
  {
    hide Lines, HeaderLine, PlainField;
    if fields == [] {
      assert FieldLines(fields) + Lines(rest) == Lines(rest);
    } else {
      HeaderIsOneLine(fields[0]);
      PrintedLines(fields[1..], rest);
      LinesCons(HeaderLine(fields[0]), PrintFields(fields[1..], rest));
    }
  }

  /** The lines behind the request line. */
  function LinesBehind(fields: seq<Field>, body: string): seq<string> {
    FieldLines(fields) + ["\r"] + if body == "" then [] else [body]
  }

  lemma LinesOfPrint(fields: seq<Field>, body: string)
    requires forall i :: 0 <= i < |fields| ==> PlainField(fields[i])
    requires '\n' !in body
    ensures Lines(Print(fields, body)) == [POST + "\r"] + LinesBehind(fields, body)
  {
    LinesOfBlankAndBody(body);
    hide Lines, HeaderLine, PlainField, PrintFields, FieldLines;
    var rest := "\r" + "\n" + body;
    PrintedLines(fields, rest);
    FirstLine(PrintFields(fields, rest));
    assert FieldLines(fields) + Lines(rest) == LinesBehind(fields, body);
  }

  lemma FirstLine(rest: string)
    ensures Lines(POST + "\r" + "\n" + rest) == [POST + "\r"] + Lines(rest)
  {
    hide Lines;
    assert '\n' !in POST + "\r";
    LinesCons(POST + "\r", rest);
  }

  lemma LinesOfBlankAndBody(body: string)
    requires '\n' !in body
    ensures Lines("\r" + "\n" + body) == ["\r"] + if body == "" then [] else [body]
  {
    LinesOfOne(body);
    hide Lines;
    LinesCons("\r", body);
  }

  // ---------- which tokens a line holds ----------

  /** The two letters before a token's colon tell the ten tokens apart. */
  function Mark(j: TokenId): (char, char) {
    match j
    case 0 => ('p', 'e')
    case 1 => ('n', 't')
    case 2 => ('s', 't')
    case 3 => ('o', 'n')
    case 4 => ('n', 'g')
    case 5 => ('t', 'h')
    case 6 => ('g', 'e')
    case 7 => ('p', 't')
    case 8 => ('m', 'a')
    case 9 => ('o', 'l')
  }

  /** A token ends with its mark and ": ", and has no other colon. */
  lemma TokenShape(j: TokenId)
    ensures var n := |Token(j)|;
      && n >= 6
      && Token(j)[n - 4] == Mark(j).0 && Token(j)[n - 3] == Mark(j).1
      && Token(j)[n - 2] == ':' && Token(j)[n - 1] == ' '
  {
  }

  lemma TokenHasOneColon(j: TokenId)
    ensures forall k :: 0 <= k < |Token(j)| - 2 ==> Token(j)[k] != ':'
  {
  }

  lemma TokensAreDistinct(i: TokenId, j: TokenId)
    requires Mark(i) == Mark(j)
    ensures i == j
  {
  }

  /** In a printed header line the characters ": " stand at one place only, the token's end. */
  lemma OneColonSpace(f: Field, p: int)
    requires PlainField(f) && 0 <= p && p + 1 < |HeaderLine(f)|
    requires HeaderLine(f)[p] == ':' && HeaderLine(f)[p + 1] == ' '
    ensures p == |Token(f.token)| - 2
  {
    var t, n := Token(f.token), |Token(f.token)|;
    TokenShape(f.token);
    TokenHasOneColon(f.token);
    hide Token;
    if p >= n && p + 1 < n + |f.value| {
      NoColonSpace(f.value, p - n);
    }
  }

  lemma NoColonSpace(s: string, i: nat)
    requires !Contains(s, ": ") && i + 1 < |s|
    ensures !(s[i] == ':' && s[i + 1] == ' ')
  {
    assert !OccursAt(s, ": ", i);
    assert s[i..i + 2] == [s[i], s[i + 1]];
  }

  lemma OwnTokenOccurs(f: Field)
    ensures Contains(HeaderLine(f), Token(f.token))
  {
    var line, t := HeaderLine(f), Token(f.token);
    hide Token;
    assert line[0..|t|] == t;
    assert OccursAt(line, t, 0);
  }

  lemma NoOtherToken(f: Field, j: TokenId, i: nat)
    requires PlainField(f) && OccursAt(HeaderLine(f), Token(j), i)
    ensures j == f.token
  {
    var line, t, u := HeaderLine(f), Token(f.token), Token(j);
    TokenShape(f.token);
    TokenShape(j);
    hide Token, Mark, Contains, PlainField;
    LastFour(line, u, i);
    hide OccursAt;
    OneColonSpace(f, i + |u| - 2);
    assert line[|t| - 4] == t[|t| - 4] && line[|t| - 3] == t[|t| - 3];
    TokensAreDistinct(f.token, j);
  }

  lemma LastFour(line: string, u: string, i: nat)
    requires |u| >= 4 && OccursAt(line, u, i)
    ensures var n := |u|;
      && i + n <= |line|
      && line[i + n - 4] == u[n - 4] && line[i + n - 3] == u[n - 3]
      && line[i + n - 2] == u[n - 2] && line[i + n - 1] == u[n - 1]
  {
    var n, here := |u|, line[i..i + |u|];
    assert here[n - 4] == line[i + n - 4] && here[n - 3] == line[i + n - 3];
    assert here[n - 2] == line[i + n - 2] && here[n - 1] == line[i + n - 1];
  }

  /** A printed header line holds its own token and no other. */
  lemma OnlyOwnToken(f: Field, j: TokenId)
    requires PlainField(f)
    ensures Contains(HeaderLine(f), Token(j)) <==> j == f.token
  {
    hide Token, HeaderLine, PlainField;
    OwnTokenOccurs(f);
    if Contains(HeaderLine(f), Token(j)) {
      var i :| 0 <= i <= |HeaderLine(f)| && OccursAt(HeaderLine(f), Token(j), i);
      NoOtherToken(f, j, i);
    }
  }

  lemma ValueAfterColon(f: Field)
    requires PlainField(f)
    ensures AfterColon(HeaderLine(f)) == f.value + "\r"
  {
    var line, n := HeaderLine(f), |Token(f.token)|;
    TokenShape(f.token);
    hide Token;
    assert line[n - 2..n] == ": ";
    assert OccursAt(line, ": ", n - 2);
    forall i | 0 <= i < n - 2 ensures !OccursAt(line, ": ", i) {
      if OccursAt(line, ": ", i) {
        assert line[i..i + 2][0] == ':' && line[i..i + 2][1] == ' ';
        OneColonSpace(f, i);
      }
    }
    AfterColonIs(line, n - 2);
    assert line[n..] == f.value + "\r";
  }

  // ---------- scanning the lines ----------

  /** A line with none of the tokens below n leaves the headers alone. */
  lemma {:induction false} ScanNothing(line: string, n: nat, headers: map<nat, string>)
    requires n <= 10 && forall j: TokenId :: j < n ==> !Contains(line, Token(j))
    ensures ScanLine(line, n, headers) == headers
  {
    hide Contains, Token, AfterColon;
    if n > 0 {
      ScanNothing(line, n - 1, headers);
    }
  }

  lemma {:induction false} ScanOne(line: string, n: nat, headers: map<nat, string>, own: TokenId)
    requires n <= 10 && own !in headers
    requires forall j: TokenId :: Contains(line, Token(j)) <==> j == own
    ensures ScanLine(line, n, headers) == if own < n then headers[own := AfterColon(line)] else headers
  {
    hide Contains, Token, AfterColon;
    if n > 0 {
      ScanOne(line, n - 1, headers, own);
    }
  }

  /** The headers these fields stand for. */
  function HeaderMap(fields: seq<Field>): map<nat, string> {
    if fields == [] then map[]
    else
      var f := fields[|fields| - 1];
      HeaderMap(fields[..|fields| - 1])[f.token as nat := f.value + "\r"]
  }

  lemma HeaderMapSnoc(fields: seq<Field>, f: Field)
    ensures HeaderMap(fields + [f]) == HeaderMap(fields)[f.token as nat := f.value + "\r"]
  {
    assert (fields + [f])[..|fields|] == fields;
  }

  lemma {:induction false} HeaderMapLacks(fields: seq<Field>, j: TokenId)
    requires forall i :: 0 <= i < |fields| ==> fields[i].token != j
    ensures j !in HeaderMap(fields)
  {
    if fields != [] {
      HeaderMapLacks(fields[..|fields| - 1], j);
    }
  }

  lemma {:induction false} HeaderMapHas(fields: seq<Field>, i: nat)
    requires PlainFields(fields) && i < |fields|
    ensures fields[i].token in HeaderMap(fields) && HeaderMap(fields)[fields[i].token] == fields[i].value + "\r"
  {
    hide PlainField;
    if i < |fields| - 1 {
      HeaderMapHas(fields[..|fields| - 1], i);
    }
  }

  lemma {:induction false} HeaderMapSize(fields: seq<Field>)
    requires PlainFields(fields)
    ensures |HeaderMap(fields)| == |fields|
  {
    hide PlainField;
    if fields != [] {
      var before := fields[..|fields| - 1];
      HeaderMapSize(before);
      HeaderMapLacks(before, fields[|fields| - 1].token);
    }
  }

  lemma {:induction false} ScanFields(fields: seq<Field>, lines: seq<string>, n: nat)
    requires PlainFields(fields) && n <= |fields| <= |lines|
    requires forall i :: 0 <= i < |fields| ==> lines[i] == HeaderLine(fields[i])
    ensures ScanLines(lines, n) == HeaderMap(fields[..n])
  {
    if n > 0 {
      ScanFields(fields, lines, n - 1);
      OneMoreField(fields, n);
      hide PlainFields, HeaderMap, HeaderLine, ScanLine;
      ScanHeader(fields[n - 1], HeaderMap(fields[..n - 1]));
    } else {
      assert fields[..0] == [];
    }
  }

  lemma OneMoreField(fields: seq<Field>, n: nat)
    requires PlainFields(fields) && 0 < n <= |fields|
    ensures var f, headers := fields[n - 1], HeaderMap(fields[..n - 1]);
      PlainField(f) && f.token !in headers && HeaderMap(fields[..n]) == headers[f.token as nat := f.value + "\r"]
  {
    hide PlainField, HeaderMap;
    HeaderMapLacks(fields[..n - 1], fields[n - 1].token);
    HeaderMapSnoc(fields[..n - 1], fields[n - 1]);
    assert fields[..n] == fields[..n - 1] + [fields[n - 1]];
  }

  /** A printed header line adds its own header. */
  lemma ScanHeader(f: Field, headers: map<nat, string>)
    requires PlainField(f) && f.token !in headers
    ensures ScanLine(HeaderLine(f), 10, headers) == headers[f.token as nat := f.value + "\r"]
  {
    forall j: TokenId ensures Contains(HeaderLine(f), Token(j)) <==> j == f.token { OnlyOwnToken(f, j); }
    ValueAfterColon(f);
    hide Contains, Token, HeaderLine, PlainField, AfterColon;
    ScanOne(HeaderLine(f), 10, headers, f.token);
  }

  lemma BlankHasNoToken(j: TokenId)
    ensures !Contains("\r", Token(j))
  {
    TokenShape(j);
    hide Token;
  }

  lemma ScanBehind(fields: seq<Field>, body: string, n: nat)
    requires PlainFields(fields) && PlainBody(body)
    requires |fields| <= n <= |LinesBehind(fields, body)|
    ensures ScanLines(LinesBehind(fields, body), n) == HeaderMap(fields)
  {
    hide Contains, Token, HeaderLine, PlainField, FieldLines;
    var behind, m := LinesBehind(fields, body), |fields|;
    if n == m {
      ScanFields(fields, behind, m);
      assert fields[..m] == fields;
    } else {
      ScanBehind(fields, body, n - 1);
      forall j: TokenId ensures !Contains(behind[n - 1], Token(j)) {
        BlankHasNoToken(j);
        assert behind[n - 1] == if n == m + 1 then "\r" else body;
      }
      ScanNothing(behind[n - 1], 10, HeaderMap(fields));
    }
  }

  /** Up to eleven lines are scanned: the headers, then perhaps the blank line and the body, which add
      nothing. */
  lemma ScanPrinted(fields: seq<Field>, body: string)
    requires PlainFields(fields) && |fields| <= 10 && PlainBody(body)
    ensures HeadersOf([POST + "\r"] + LinesBehind(fields, body)) == HeaderMap(fields)
  {
    hide PlainFields, PlainBody, ScanLines, LinesBehind;
    var behind := LinesBehind(fields, body);
    HeadersBehind(POST + "\r", behind);
    assert |behind| >= |fields| + 1 by { LongEnough(fields, body); }
    ScanBehind(fields, body, Min(|behind|, 11));
  }

  lemma LongEnough(fields: seq<Field>, body: string)
    ensures |LinesBehind(fields, body)| >= |fields| + 1
  {
    hide FieldLines;
  }

  lemma HeadersBehind(first: string, behind: seq<string>)
    ensures HeadersOf([first] + behind) == ScanLines(behind, Min(|behind|, 11))
  {
    assert ([first] + behind)[1..] == behind;
  }

  // ---------- the theorem ----------

  /** Round trip. A POST request with one to ten distinct recognised headers, a Content-Length among
      them, a blank line and a body of at most one line free of header tokens, parsed in one read,
      declares the printed length and keeps "\r" and the body. More data is asked for exactly when the
      length is above |body| + 1, so never when it is right. */
  lemma PrintedRequestParses(fields: seq<Field>, k: nat, length: nat, body: string, json: Json)
    requires PlainFields(fields) && k < |fields| <= 10 && PlainBody(body)
    requires length <= INT_MAX
    requires fields[k] == Field(CONTENT_LENGTH, Decimal(length))
    ensures var (st, verdict) := ParseStep(FRESH, Print(fields, body), json);
      && st.contentLength == length && st.jsonRequest == "\r" + body && st.readAmount == |body| + 1
      && (verdict == More <==> length > |body| + 1)
      && (length == |body| ==> verdict == (if json("\r" + body).Some? then Complete else Bad))
  {
    HeaderPhaseOfPrint(fields, k, length, body);
    hide HeaderPhase, Print;
  }

  lemma HeaderPhaseOfPrint(fields: seq<Field>, k: nat, length: nat, body: string)
    requires PlainFields(fields) && k < |fields| <= 10 && PlainBody(body)
    requires length <= INT_MAX
    requires fields[k] == Field(CONTENT_LENGTH, Decimal(length))
    ensures HeaderPhase(Print(fields, body)) == Some((length, "\r" + body))
  {
    LinesOfPrint(fields, body);
    ScanPrinted(fields, body);
    HeaderMapSize(fields);
    HeaderMapHas(fields, k);
    StoiReadsInt(length, "\r");
    RestOfPrint(fields, body);
    hide Lines, HeadersOf, PlainField, PlainBody, Stoi, Print, HeaderMap, LinesBehind, PlainFields, Joined;
    LongEnough(fields, body);
    var behind := LinesBehind(fields, body);
    PhaseOfLines(Print(fields, body), POST + "\r", behind, HeaderMap(fields), length);
  }

  lemma PhaseOfLines(input: string, first: string, behind: seq<string>, headers: map<nat, string>, length: nat)
    requires input != "" && Lines(input) == [first] + behind && POST <= first
    requires HeadersOf([first] + behind) == headers && |headers| <= |behind|
    requires CONTENT_LENGTH in headers && Stoi(headers[CONTENT_LENGTH]) == Some(length)
    ensures HeaderPhase(input) == Some((length, Joined(behind[|headers|..])))
  {
    hide Lines, HeadersOf, Stoi, Joined;
    var lines := [first] + behind;
    assert lines[0] == first && lines[|headers| + 1..] == behind[|headers|..];
  }

  lemma RestOfPrint(fields: seq<Field>, body: string)
    ensures |LinesBehind(fields, body)| >= |fields|
    ensures Joined(LinesBehind(fields, body)[|fields|..]) == "\r" + body
  {
    JoinedOfTwo(body);
    hide FieldLines, Joined;
    assert LinesBehind(fields, body)[|fields|..] == ["\r"] + if body == "" then [] else [body];
  }

  lemma JoinedOfTwo(body: string)
    ensures Joined(["\r"] + if body == "" then [] else [body]) == "\r" + body
  {
    var lines := ["\r"] + if body == "" then [] else [body];
    assert Joined(["\r"]) == "\r" by { assert ["\r"][..0] == []; }
    if body != "" {
      assert lines[..1] == ["\r"];
    } else {
      assert lines == ["\r"];
    }
  }

  lemma TwoHeaders(a: Field, b: Field, body: string)
    ensures Print([a, b], body) ==
            POST + "\r" + "\n" + (HeaderLine(a) + "\n" + (HeaderLine(b) + "\n" + ("\r" + "\n" + body)))
  {
    hide HeaderLine;
    var rest := "\r" + "\n" + body;
    assert [a, b][1..] == [b] && [b][1..] == [];
    assert PrintFields([b], rest) == HeaderLine(b) + "\n" + rest;
  }

  const HOST := Field(2, "x")
  const LENGTH := Field(CONTENT_LENGTH, "2")
  const WRITTEN_OUT := "POST / HTTP/1.1\r\nHost: x\r\nContent-Length: 2\r\n\r\n{}"

  lemma PrintedHost()
    ensures PlainField(HOST) && HeaderLine(HOST) == "Host: x\r"
  {
    assert !Contains("x", ": ");
    hide Contains;
  }

  lemma PrintedLength()
    ensures PlainField(LENGTH) && HeaderLine(LENGTH) == "Content-Length: 2\r"
  {
    assert !Contains("2", ": ");
    hide Contains;
  }

  lemma WrittenOutIsPrinted()
    ensures Print([HOST, LENGTH], "{}") == WRITTEN_OUT
  {
    TwoHeaders(HOST, LENGTH, "{}");
    PrintedHost();
    PrintedLength();
    hide Print, PrintFields, HeaderLine, PlainField;
  }

  lemma BothPlain()
    ensures PlainFields([HOST, LENGTH]) && LENGTH == Field(CONTENT_LENGTH, Decimal(2)) && 2 <= INT_MAX
  {
    PrintedHost();
    PrintedLength();
    hide PlainField, HeaderLine;
    assert Decimal(2) == "2";
  }

  lemma ShortBody()
    ensures PlainBody("{}")
  {
    forall j: TokenId ensures !Contains("{}", Token(j)) {
      TokenShape(j);
      hide Token;
    }
  }

  /** One request written out. */
  lemma WrittenOutRequestParses(json: Json)
    ensures var (st, verdict) := ParseStep(FRESH, WRITTEN_OUT, json);
      && st.contentLength == 2 && st.jsonRequest == "\r{}" && st.readAmount == 3
      && verdict == (if json("\r{}").Some? then Complete else Bad)
  {
    WrittenOutIsPrinted();
    BothPlain();
    ShortBody();
    hide *;
    var fields := [HOST, LENGTH];
    assert fields[1] == LENGTH;
    PrintedRequestParses(fields, 1, 2, "{}", json);
  }
}
