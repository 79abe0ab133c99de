/** The string filter `checkString` and the SQL text the server builds around accepted strings. */
module QueryText {
  import opened Text
  import opened ReservedWords

  /** The characters the filter lets through. The bounds are the ones in the code, so '[' (91) and
      '{' (123) pass; a byte above 127 is a negative `char` there and is refused, as it is here. */
  predicate AllowedChar(c: char) {
    || c in " ./@+-:!?"
    || c == '\n'
    || 48 <= c as int <= 57
    || 65 <= c as int <= 91
    || 97 <= c as int <= 123
  }

  predicate Accepted(reserved: seq<string>, s: string) {
    && (forall c <- s :: AllowedChar(c))
    && (forall word <- reserved :: !Contains(s, word))
  }

  method CheckString(reserved: seq<string>, input: string) returns (ok: bool)
    ensures ok <==> Accepted(reserved, input)
  {
    for i := 0 to |input|
      invariant forall k :: 0 <= k < i ==> AllowedChar(input[k])
    {
      var temp := input[i];
      match temp
      case ' ' | '.' | '@' | '/' | '+' | '-' | '\n' | ':' | '!' | '?' => continue;
      case _ =>
        assert temp in input && temp !in " ./@+-:!?";
        if temp as int < 48 {
          return false;
        } else if 57 < temp as int < 65 {
          return false;
        } else if 91 < temp as int < 97 {
          return false;
        } else if temp as int > 123 {
          return false;
        }
    }
    for i := 0 to |reserved|
      invariant forall k :: 0 <= k < i ==> !Contains(input, reserved[k])
    {
      var at := Find(input, reserved[i]);
      if at.Some? {
        return false;
      }
    }
    return true;
  }

  // ---------- reading SQL text back ----------

  datatype Token = Code(text: string) | Literal(text: string)

  /** The character a backslash escape stands for inside a MySQL string literal. */
  function Unescaped(c: char): string {
    match c
    case '0' => [0 as char]
    case 'b' => [8 as char]
    case 'n' => "\n"
    case 'r' => "\r"
    case 't' => "\t"
    case 'Z' => [26 as char]
    case '%' => "\\%"
    case '_' => "\\_"
    case _ => [c]
  }

  /** Text outside a literal: up to the next quote. None on a character that could open a comment
      or another kind of quoting, which none of the server's templates uses. */
  function LexCode(s: string, code: string): Option<seq<Token>>
    decreases |s|
  {
    if s == "" then Some([Code(code)])
    else if s[0] == '\'' then
      match LexLiteral(s[1..], "")
      case None => None
      case Some(tokens) => Some([Code(code)] + tokens)
    else if s[0] in "\"`#-/" then None
    else LexCode(s[1..], code + [s[0]])
  }

  /** Text inside a single-quoted literal: a doubled quote is a quote, a backslash escapes the next
      character, a lone quote ends the literal. None if the text ends first. */
  function LexLiteral(s: string, literal: string): Option<seq<Token>>
    decreases |s|
  {
    if s == "" then None
    else if s[0] == '\'' then
      if |s| > 1 && s[1] == '\'' then LexLiteral(s[2..], literal + "'")
      else
        match LexCode(s[1..], "")
        case None => None
        case Some(tokens) => Some([Literal(literal)] + tokens)
    else if s[0] == '\\' then
      if |s| == 1 then None else LexLiteral(s[2..], literal + Unescaped(s[1]))
    else LexLiteral(s[1..], literal + [s[0]])
  }

  function Tokenise(query: string): Option<seq<Token>> {
    LexCode(query, "")
  }

  // ---------- templates ----------

  predicate CodeChar(c: char) {
    c != '\'' && c != '\"' && c != '`' && c != '#' && c != '-' && c != '/'
  }

  predicate PlainCode(code: string) {
    forall i :: 0 <= i < |code| ==> CodeChar(code[i])
  }

  predicate PlainLiteral(text: string) {
    '\'' !in text && '\\' !in text
  }

  /** `codes[0] + "'" + args[0] + "'" + codes[1] + ...`, as the server concatenates it. */
  function Render(codes: seq<string>, args: seq<string>): string
    requires |codes| == |args| + 1
  {
    if args == [] then codes[0]
    else codes[0] + ("'" + args[0] + "'" + Render(codes[1..], args[1..]))
  }

  function Interleave(codes: seq<string>, args: seq<string>): seq<Token>
    requires |codes| == |args| + 1
  {
    if args == [] then [Code(codes[0])]
    else [Code(codes[0]), Literal(args[0])] + Interleave(codes[1..], args[1..])
  }

  /** A usable template: plain code, and something between two neighbouring literals. */
  predicate Template(codes: seq<string>) {
    && codes != []
    && (forall code <- codes :: PlainCode(code))
    && (forall i :: 0 < i < |codes| ==> codes[i] != "")
  }

  lemma {:induction false} LexCodeSkips(code: string, rest: string, done: string)
    requires PlainCode(code)
    ensures LexCode(code + rest, done) == LexCode(rest, done + code)
    decreases |code|
  {
    if code == "" {
      assert code + rest == rest && done + code == done;
    } else {
      LexCodeSkips(code[1..], rest, done + [code[0]]);
      assert (code + rest)[1..] == code[1..] + rest;
      assert done + [code[0]] + code[1..] == done + code;
    }
  }

  lemma {:induction false} LexLiteralSkips(text: string, rest: string, done: string)
    requires PlainLiteral(text)
    ensures LexLiteral(text + rest, done) == LexLiteral(rest, done + text)
    decreases |text|
  {
    if text == "" {
      assert text + rest == rest && done + text == done;
    } else {
      LexLiteralSkips(text[1..], rest, done + [text[0]]);
      assert (text + rest)[1..] == text[1..] + rest;
      assert done + [text[0]] + text[1..] == done + text;
    }
  }

  /** Tokens in front of what the rest reads as, if it reads at all. */
  function Prefixed(tokens: seq<Token>, rest: Option<seq<Token>>): Option<seq<Token>> {
    match rest case None => None case Some(more) => Some(tokens + more)
  }

  /** One quoted literal, read after some code and before more of it. */
  lemma LiteralTokenises(code: string, arg: string, tail: string)
    requires PlainLiteral(arg)
    requires tail != "" && tail[0] != '\''
    ensures LexCode("'" + arg + "'" + tail, code) == Prefixed([Code(code), Literal(arg)], Tokenise(tail))
  {
    var closed := "'" + tail;
    var quoted := "'" + arg + "'" + tail;
    assert quoted[0] == '\'' && quoted[1..] == arg + closed;
    LexLiteralSkips(arg, closed, "");
    assert "" + arg == arg;
    assert closed[1] == tail[0] && closed[1..] == tail;
    var rest := Tokenise(tail);
    assert LexLiteral(closed, arg) == Prefixed([Literal(arg)], rest);
    if rest.Some? {
      assert [Code(code)] + ([Literal(arg)] + rest.value) == [Code(code), Literal(arg)] + rest.value;
    }
  }

  lemma TemplateTail(codes: seq<string>)
    requires Template(codes) && |codes| > 1
    ensures Template(codes[1..]) && codes[1] != "" && codes[1][0] != '\''
  {
    assert codes[1] in codes;
    assert CodeChar(codes[1][0]);
  }

  /** Generated text reads back as its template with exactly the given literals. */
  lemma {:induction false} RenderTokenises(codes: seq<string>, args: seq<string>)
    requires |codes| == |args| + 1 && Template(codes)
    requires forall arg <- args :: PlainLiteral(arg)
    ensures Tokenise(Render(codes, args)) == Some(Interleave(codes, args))
    decreases |args|
  {
    hide LexLiteral;
    assert codes[0] in codes;
    assert "" + codes[0] == codes[0];
    if args == [] {
      LexCodeSkips(codes[0], "", "");
      assert codes[0] + "" == codes[0];
    } else {
      var tail := Render(codes[1..], args[1..]);
      TemplateTail(codes);
      RenderTokenises(codes[1..], args[1..]);
      assert codes[1] <= tail;
      assert tail[0] == codes[1][0];
      LiteralTokenises(codes[0], args[0], tail);
      LexCodeSkips(codes[0], "'" + args[0] + "'" + tail, "");
    }
  }

  // ---------- the queries ----------

  const SELECT_NAME := ["SELECT user_name FROM users WHERE user_name=", ";"]
  const INSERT_USER := ["INSERT INTO users(user_name, user_score" + ", password, email_address) values(",
    ",", ",", ",", ");"]
  const SELECT_PASSWORD := ["SELECT password FROM users WHERE user_name=", ";"]
  const SELECT_USER_ID := ["SELECT user_id FROM users WHERE user_name=", ";"]
  const DELETE_USER := ["DELETE FROM users WHERE user_id=", " AND user_name=", ";"]
  const INSERT_CONTEST := ["INSERT INTO contest(user1, name" + ", permissions, endtime) values(", ",", ",", ",", ");"]

  function SelectName(username: string): string {
    Render(SELECT_NAME, [username])
  }

  function InsertUser(username: string, password: string, email: string): string {
    Render(INSERT_USER, [username, "0", password, email])
  }

  function SelectPassword(username: string): string {
    Render(SELECT_PASSWORD, [username])
  }

  function SelectUserId(username: string): string {
    Render(SELECT_USER_ID, [username])
  }

  function DeleteUser(userid: int, username: string): string {
    Render(DELETE_USER, [IntToString(userid), username])
  }

  function InsertContest(userid: int, title: string, permission: int, endtime: string): string {
    Render(INSERT_CONTEST, [IntToString(userid), title, IntToString(permission), endtime])
  }

  lemma AcceptedIsPlain(reserved: seq<string>, s: string)
    requires Accepted(reserved, s)
    ensures PlainLiteral(s)
  {
    assert !AllowedChar('\'') && !AllowedChar('\\');
  }

  lemma IntIsPlain(n: int)
    ensures PlainLiteral(IntToString(n))
  {
    var digits := Decimal(if n < 0 then -n else n);
    assert forall c <- digits :: IsDigit(c);
    assert forall c <- IntToString(n) :: c == '-' || IsDigit(c);
  }

  lemma SelectNameIsPlain()
    ensures PlainCode("SELECT user_name FROM users WHERE user_name=")
  {
  }

  lemma SelectPasswordIsPlain()
    ensures PlainCode("SELECT password FROM users WHERE user_name=")
  {
  }

  lemma SelectUserIdIsPlain()
    ensures PlainCode("SELECT user_id FROM users WHERE user_name=")
  {
  }

  lemma DeleteUserIsPlain()
    ensures PlainCode("DELETE FROM users WHERE user_id=") && PlainCode(" AND user_name=")
  {
  }

  lemma InsertUserIsPlain()
    ensures PlainCode("INSERT INTO users(user_name, user_score" + ", password, email_address) values(")
  {
    assert PlainCode("INSERT INTO users(user_name, user_score");
    assert PlainCode(", password, email_address) values(");
  }

  lemma InsertContestIsPlain()
    ensures PlainCode("INSERT INTO contest(user1, name" + ", permissions, endtime) values(")
  {
    assert PlainCode("INSERT INTO contest(user1, name");
    assert PlainCode(", permissions, endtime) values(");
  }

  /** A query naming one user reads back as its template and that name. */
  lemma SelectsTokenise(reserved: seq<string>, username: string)
    requires Accepted(reserved, username)
    ensures Tokenise(SelectName(username)) == Some(Interleave(SELECT_NAME, [username]))
    ensures Tokenise(SelectPassword(username)) == Some(Interleave(SELECT_PASSWORD, [username]))
    ensures Tokenise(SelectUserId(username)) == Some(Interleave(SELECT_USER_ID, [username]))
  {
    AcceptedIsPlain(reserved, username);
    hide Tokenise, Render, Interleave, PlainCode, PlainLiteral;
    SelectNameIsPlain();
    SelectPasswordIsPlain();
    SelectUserIdIsPlain();
    SemicolonIsPlain();
    RenderTokenises(SELECT_NAME, [username]);
    RenderTokenises(SELECT_PASSWORD, [username]);
    RenderTokenises(SELECT_USER_ID, [username]);
  }

  lemma SemicolonIsPlain()
    ensures PlainCode(";") && PlainCode(",") && PlainCode(");")
  {
  }

  /** The INSERT of an account reads back as its template and the four values. */
  lemma InsertUserTokenises(reserved: seq<string>, username: string, password: string, email: string)
    requires Accepted(reserved, username) && Accepted(reserved, password) && Accepted(reserved, email)
    ensures Tokenise(InsertUser(username, password, email)) ==
            Some(Interleave(INSERT_USER, [username, "0", password, email]))
  {
    AcceptedIsPlain(reserved, username);
    AcceptedIsPlain(reserved, password);
    AcceptedIsPlain(reserved, email);
    assert PlainLiteral("0");
    hide Tokenise, Render, Interleave, PlainCode, PlainLiteral;
    InsertUserIsPlain();
    SemicolonIsPlain();
    RenderTokenises(INSERT_USER, [username, "0", password, email]);
  }

  lemma DeleteUserTokenises(reserved: seq<string>, userid: int, username: string)
    requires Accepted(reserved, username)
    ensures Tokenise(DeleteUser(userid, username)) ==
            Some(Interleave(DELETE_USER, [IntToString(userid), username]))
  {
    AcceptedIsPlain(reserved, username);
    IntIsPlain(userid);
    hide Tokenise, Render, Interleave, PlainCode, PlainLiteral, IntToString;
    DeleteUserIsPlain();
    SemicolonIsPlain();
    RenderTokenises(DELETE_USER, [IntToString(userid), username]);
  }

  /** The INSERT of a contest reads back as its template, with both numbers and both strings. */
  lemma InsertContestTokenises(reserved: seq<string>, userid: int, title: string, permission: int, endtime: string)
    requires Accepted(reserved, title) && Accepted(reserved, endtime)
    ensures Tokenise(InsertContest(userid, title, permission, endtime)) ==
            Some(Interleave(INSERT_CONTEST, [IntToString(userid), title, IntToString(permission), endtime]))
  {
    AcceptedIsPlain(reserved, title);
    AcceptedIsPlain(reserved, endtime);
    IntIsPlain(userid);
    IntIsPlain(permission);
    hide Tokenise, Render, Interleave, PlainCode, PlainLiteral, IntToString;
    InsertContestIsPlain();
    SemicolonIsPlain();
    RenderTokenises(INSERT_CONTEST, [IntToString(userid), title, IntToString(permission), endtime]);
  }

  // ---------- the unfiltered image text ----------

  const INSERT_IMAGE := ["INSERT INTO images(owner_id, image) values(", ",", ");"]

  function InsertImage(owner: int, text: string): string {
    Render(INSERT_IMAGE, [IntToString(owner), text])
  }

  /** Texts a MySQL literal reads as themselves: no quote, and a backslash only where it escapes a
      '%' or '_', which keeps both characters. */
  predicate Verbatim(text: string) {
    if text == "" then true
    else if text[0] == '\'' then false
    else if text[0] == '\\' then |text| > 1 && (text[1] == '%' || text[1] == '_') && Verbatim(text[2..])
    else Verbatim(text[1..])
  }

  lemma {:induction false} PlainIsVerbatim(text: string)
    requires PlainLiteral(text)
    ensures Verbatim(text)
    decreases |text|
  {
    if text != "" {
      PlainIsVerbatim(text[1..]);
    }
  }

  predicate NoQuote(s: string) {
    '\'' !in s
  }

  /** The rest of the query behind an open literal. */
  function Closing(text: string, tail: string): string {
    text + ("'" + tail)
  }

  lemma ClosingSteps(text: string, tail: string)
    ensures |Closing(text, tail)| == |text| + 1 + |tail|
    ensures text == "" ==> Closing(text, tail)[0] == '\'' && Closing(text, tail)[1..] == tail
    ensures text != "" ==> Closing(text, tail)[0] == text[0] && Closing(text, tail)[1..] == Closing(text[1..], tail)
    ensures |text| > 1 ==> Closing(text, tail)[1] == text[1] && Closing(text, tail)[2..] == Closing(text[2..], tail)
    ensures |text| == 1 ==> Closing(text, tail)[1] == '\'' && Closing(text, tail)[2..] == tail
  {
  }

  lemma {:induction false} UnclosedIsRefused(s: string, done: string)
    requires NoQuote(s)
    ensures LexLiteral(s, done) == None
    decreases |s|
  {
    if s != "" {
      assert s[0] in s;
      if s[0] == '\\' {
        if |s| > 1 {
          UnclosedIsRefused(s[2..], done + Unescaped(s[1]));
        }
      } else {
        UnclosedIsRefused(s[1..], done + [s[0]]);
      }
    }
  }

  /** The literal read is never longer than the text between the quotes. */
  lemma {:induction false} LiteralIsNoLonger(text: string, tail: string, done: string)
    requires NoQuote(tail)
    ensures var tokens := LexLiteral(Closing(text, tail), done);
      tokens.Some? ==> tokens.value != [] && tokens.value[0].Literal? && |tokens.value[0].text| <= |done| + |text|
    decreases |text|
  {
    ClosingSteps(text, tail);
    hide Closing, LexCode;
    if text == "" {
      assert tail != "" ==> tail[0] in tail;
    } else if |text| == 1 {
      if text[0] == '\'' {
        UnclosedIsRefused(tail, done + "'");
      } else if text[0] == '\\' {
        UnclosedIsRefused(tail, done + Unescaped('\''));
      } else {
        LiteralIsNoLonger(text[1..], tail, done + [text[0]]);
      }
    } else if text[0] == '\'' && text[1] == '\'' {
      LiteralIsNoLonger(text[2..], tail, done + "'");
    } else if text[0] == '\\' {
      LiteralIsNoLonger(text[2..], tail, done + Unescaped(text[1]));
    } else if text[0] != '\'' {
      LiteralIsNoLonger(text[1..], tail, done + [text[0]]);
    }
  }

  /** A text is read as itself if and only if it is verbatim. */
  lemma {:induction false} LiteralReadsBackIff(text: string, tail: string, done: string)
    requires tail != "" && NoQuote(tail) && LexCode(tail, "").Some?
    ensures LexLiteral(Closing(text, tail), done) == Some([Literal(done + text)] + LexCode(tail, "").value)
            <==> Verbatim(text)
    decreases |text|
  {
    ClosingSteps(text, tail);
    hide Closing, LexCode;
    if text == "" {
      assert tail[0] in tail;
      assert done + text == done;
    } else if text[0] == '\'' {
      LiteralIsNoLonger(text, tail, done);
      if |text| == 1 {
        UnclosedIsRefused(tail, done + "'");
      } else if text[1] == '\'' {
        LiteralIsNoLonger(text[2..], tail, done + "'");
      }
    } else if text[0] == '\\' {
      if |text| == 1 {
        UnclosedIsRefused(tail, done + Unescaped('\''));
      } else if text[1] == '%' || text[1] == '_' {
        LiteralReadsBackIff(text[2..], tail, done + text[..2]);
        assert Unescaped(text[1]) == text[..2];
        assert done + text[..2] + text[2..] == done + text;
      } else {
        LiteralIsNoLonger(text[2..], tail, done + Unescaped(text[1]));
      }
    } else {
      LiteralReadsBackIff(text[1..], tail, done + [text[0]]);
      assert done + [text[0]] + text[1..] == done + text;
    }
  }

  lemma InsertImageIsPlain()
    ensures PlainCode("INSERT INTO images(owner_id, image) values(")
  {
  }

  lemma ImageTail()
    ensures LexCode(");", "") == Some([Code(");")]) && NoQuote(");")
  {
    assert PlainCode(");");
    LexCodeSkips(");", "", "");
    assert ");" + "" == ");" && "" + ");" == ");";
  }

  lemma CodeOpens(code: string, behind: string)
    requires PlainCode(code)
    ensures Tokenise(code + ("'" + behind)) == Prefixed([Code(code)], LexLiteral(behind, ""))
  {
    LexCodeSkips(code, "'" + behind, "");
    assert "" + code == code;
    assert ("'" + behind)[0] == '\'' && ("'" + behind)[1..] == behind;
  }

  /** Two literals in a row: what the text reads as is decided behind the second opening quote. */
  lemma OwnerThenImage(first: string, id: string, behind: string)
    requires PlainCode(first) && PlainLiteral(id)
    ensures Tokenise(first + ("'" + id + "'" + ("," + ("'" + behind)))) ==
            Prefixed([Code(first), Literal(id), Code(",")], LexLiteral(behind, ""))
  {
    var tail := "," + ("'" + behind);
    LexCodeSkips(first, "'" + id + "'" + tail, "");
    assert "" + first == first;
    LiteralTokenises(first, id, tail);
    assert PlainCode(",");
    CodeOpens(",", behind);
    hide LexLiteral, LexCode;
    var rest := LexLiteral(behind, "");
    if rest.Some? {
      assert [Code(first), Literal(id)] + ([Code(",")] + rest.value)
             == [Code(first), Literal(id), Code(",")] + rest.value;
    }
  }

  lemma RenderImage(id: string, text: string)
    ensures Render(INSERT_IMAGE, [id, text]) == INSERT_IMAGE[0] + ("'" + id + "'" + ("," + ("'" + Closing(text, ");"))))
    ensures Interleave(INSERT_IMAGE, [id, text]) ==
            [Code(INSERT_IMAGE[0]), Literal(id), Code(",")] + ([Literal(text)] + [Code(");")])
  {
    var codes := INSERT_IMAGE[1..];
    assert codes == [",", ");"] && codes[1..] == [");"];
    assert [id, text][1..] == [text] && [text][1..] == [];
    assert Render([");"], []) == ");";
    assert Render(codes, [text]) == "," + ("'" + text + "'" + ");");
    assert "'" + text + "'" + ");" == "'" + Closing(text, ");");
    assert Interleave(codes, [text]) == [Code(","), Literal(text)] + Interleave([");"], []);
  }

  /** The INSERT of an image reads back as its template, the owner and exactly that text if and only if
      the text is verbatim. */
  lemma InsertImageTokenisesIff(owner: int, text: string)
    ensures Tokenise(InsertImage(owner, text)) == Some(Interleave(INSERT_IMAGE, [IntToString(owner), text]))
            <==> Verbatim(text)
  {
    var id := IntToString(owner);
    ImageTail();
    LiteralReadsBackIff(text, ");", "");
    assert "" + text == text;
    IntIsPlain(owner);
    InsertImageIsPlain();
    RenderImage(id, text);
    OwnerThenImage(INSERT_IMAGE[0], id, Closing(text, ");"));
    hide Tokenise, Render, Interleave, PlainCode, PlainLiteral, LexLiteral, LexCode, IntToString, Verbatim;
    var head := [Code(INSERT_IMAGE[0]), Literal(id), Code(",")];
    var body := LexLiteral(Closing(text, ");"), "");
    if body.Some? {
      assert (head + body.value)[|head|..] == body.value;
      assert (head + ([Literal(text)] + [Code(");")]))[|head|..] == [Literal(text)] + [Code(");")];
    }
  }

  /** One image text that the query does not carry: its quote ends the literal early. */
  lemma QuoteBreaksInsert(owner: int)
    ensures Tokenise(InsertImage(owner, "it's")) != Some(Interleave(INSERT_IMAGE, [IntToString(owner), "it's"]))
  {
    InsertImageTokenisesIff(owner, "it's");
    assert "it's"[1..] == "t's" && "t's"[1..] == "'s";
    assert !Verbatim("'s");
  }

  // ---------- texts without capitals ----------

  predicate Lowercase(s: string) {
    forall c <- s :: 'a' <= c <= 'z'
  }

  /** The filter lets every text of allowed characters through that has no capital letter. */
  lemma NoCapitalsIsAccepted(s: string)
    requires forall c <- s :: AllowedChar(c) && !('A' <= c <= 'Z')
    ensures Accepted(RESERVED_WORDS, s)
  {
    ReservedWordsAreCapital();
    hide RESERVED_WORDS;
    forall word | word in RESERVED_WORDS
      ensures !Contains(s, word)
    {
      FirstOfContained(s, word);
    }
  }

  /** So it does every text of lower-case letters. */
  lemma LowercaseIsAccepted(s: string)
    requires Lowercase(s)
    ensures Accepted(RESERVED_WORDS, s)
  {
    hide RESERVED_WORDS, Accepted;
    NoCapitalsIsAccepted(s);
  }

  lemma FirstOfContained(s: string, word: string)
    requires word != ""
    ensures Contains(s, word) ==> word[0] in s
  {
    if Contains(s, word) {
      var i :| 0 <= i <= |s| && OccursAt(s, word, i);
      assert s[i..i + |word|][0] == s[i];
    }
  }
}
