/** A connection's life (source/connection.cpp): reads until the request is decided, one reply, and
    nothing after it. */
module Connection {
  import opened Text
  import opened RequestParser
  import RequestRoundTrip
  import Tables
  import Requests
  import Replies
  import ServerDb
  import Handler

  /** The connection object, with the asynchronous operations it has outstanding. `lent` is the reply
      whose memory an outstanding write reads from. */
  datatype Life = Life(started: bool, reading: nat, writing: nat, handlerCalls: nat, replies: nat,
                       parser: State, reply: Replies.Reply, lent: Option<Replies.Reply>)

  const NO_REPLY := Replies.Reply(0, [], "")
  const NEW_LIFE := Life(false, 0, 0, 0, 0, FRESH, NO_REPLY, None)

  /** What the I/O service can do with a connection. `handled` is what the request handler would answer. */
  datatype Event =
    | Accepted
    | ReadDone(error: bool, data: string, handled: Replies.Reply)
    | WriteDone(error: bool)

  function Unauthorized(): Replies.Reply {
    Replies.SetHeaders(Replies.Reply(401, [], Replies.StockContent(401)), "text/html")
  }

  function StartRead(c: Life): Life {
    c.(reading := c.reading + 1)
  }

  function StartWrite(c: Life, reply: Replies.Reply): Life {
    c.(reply := reply, writing := c.writing + 1, replies := c.replies + 1, lent := Some(reply))
  }

  /** handle_read, for a read that has just completed. */
  function AfterRead(c: Life, data: string, handled: Replies.Reply, json: Json): Life
    requires data != ""
  {
    var (parser, result) := ParseStep(c.parser, data, json);
    var next := c.(parser := parser);
    match result
    case Complete => StartWrite(next.(handlerCalls := next.handlerCalls + 1), handled)
    case Bad => StartWrite(next, Unauthorized())
    case More => StartRead(next)
  }

  /** Completions come only for operations that are outstanding, and a successful read has data. */
  function LifeStep(c: Life, e: Event, json: Json): Life {
    match e
    case Accepted => if c.started then c else StartRead(c.(started := true))
    case ReadDone(error, data, handled) =>
      if c.reading == 0 || (!error && data == "") then c
      else
        var done := c.(reading := c.reading - 1);
        if error then done else AfterRead(done, data, handled, json)
    case WriteDone(error) =>
      if c.writing == 0 then c else c.(writing := c.writing - 1, lent := None)
  }

  function Live(es: seq<Event>, json: Json): Life {
    if es == [] then NEW_LIFE else LifeStep(Live(es[..|es| - 1], json), es[|es| - 1], json)
  }

  ghost predicate Orderly(c: Life) {
    && c.reading + c.writing <= 1
    && c.handlerCalls <= c.replies <= 1
    && (!c.started ==> c.reading == 0 && c.replies == 0)
    && (c.replies == 1 ==> c.reading == 0)
    && (c.replies == 0 ==> c.reply == NO_REPLY)
    && c.writing <= c.replies
    && c.lent == (if c.writing == 1 then Some(c.reply) else None)
  }

  lemma {:induction false} LifeIsOrderly(es: seq<Event>, json: Json)
    ensures Orderly(Live(es, json))
  {
    hide ParseStep;
    if es == [] {
    } else {
      LifeIsOrderly(es[..|es| - 1], json);
    }
  }

  /** In every run: at most one operation is outstanding, the handler is called and a reply started at
      most once, no read follows a reply, and the lent reply is the connection's own, unchanged. */
  lemma ConnectionServesOnce(es: seq<Event>, e: Event, json: Json)
    ensures var c, d := Live(es, json), Live(es + [e], json);
      && d.reading + d.writing <= 1
      && d.handlerCalls <= d.replies <= 1
      && (c.replies == 1 ==> d.reading == 0 && d.reply == c.reply && d.replies == 1 && d.parser == c.parser)
      && (d.writing == 1 ==> d.lent == Some(d.reply))
  {
    LifeIsOrderly(es, json);
    LifeIsOrderly(es + [e], json);
    assert (es + [e])[..|es|] == es;
    hide ParseStep, Live;
  }

  // ---------- reads lead to one reply ----------

  function ReadAll(c: Life, chunks: seq<string>, handled: Replies.Reply, json: Json): Life {
    if chunks == [] then c
    else LifeStep(ReadAll(c, chunks[..|chunks| - 1], handled, json),
                  ReadDone(false, chunks[|chunks| - 1], handled), json)
  }

  lemma {:induction false} ReadsWait(c: Life, chunks: seq<string>, handled: Replies.Reply, json: Json)
    requires c.reading == 1 && c.writing == 0 && !c.parser.readHeader && AllNonempty(chunks)
    requires c.parser.readAmount + |Joined(chunks)| < c.parser.contentLength
    ensures ReadAll(c, chunks, handled, json) == c.(parser := Feed(c.parser, chunks, json).0)
  {
    if chunks != [] {
      var before, last := chunks[..|chunks| - 1], chunks[|chunks| - 1];
      ReadsWait(c, before, handled, json);
      FeedWaits(c.parser, before, json);
      FeedWaits(c.parser, chunks, json);
      EachReadMakesProgress(Feed(c.parser, before, json).0, last, json);
      hide ParseStep, Joined;
    }
  }

  /** Once the first read has asked for more, exactly the missing bytes, in any nonempty reads, bring
      about exactly one reply: the handler's when the text is acceptable, the 401 page otherwise. */
  lemma TailIsServedOnce(c: Life, chunks: seq<string>, handled: Replies.Reply, json: Json)
    requires c.reading == 1 && c.writing == 0 && !c.parser.readHeader && AllNonempty(chunks) && chunks != []
    requires c.parser.readAmount + |Joined(chunks)| == c.parser.contentLength
    ensures var d := ReadAll(c, chunks, handled, json);
      var good := json(c.parser.jsonRequest + Joined(chunks)).Some?;
      && d.reading == 0 && d.writing == 1 && d.replies == c.replies + 1
      && d.reply == (if good then handled else Unauthorized())
      && d.handlerCalls == c.handlerCalls + (if good then 1 else 0)
  {
    var before, last := chunks[..|chunks| - 1], chunks[|chunks| - 1];
    assert Joined(chunks) == Joined(before) + last;
    ReadsWait(c, before, handled, json);
    FeedWaits(c.parser, before, json);
    LastRead(c.parser, Feed(c.parser, before, json).0, Joined(before), last, json);
    hide Feed, Joined;
  }

  // ---------- from the first read on ----------

  /** What the first read brings about on a new connection: another read, the handler's reply, or the
      401 page, as the parser decides. */
  lemma FirstReadDecides(input: string, handled: Replies.Reply, json: Json)
    requires input != ""
    ensures var (parser, verdict) := ParseStep(FRESH, input, json);
      var d := ReadAll(LifeStep(NEW_LIFE, Accepted, json), [input], handled, json);
      && d.parser == parser
      && d.reading == (if verdict == More then 1 else 0) && d.writing == d.replies == 1 - d.reading
      && d.handlerCalls == (if verdict == Complete then 1 else 0)
      && (verdict == Complete ==> d.reply == handled) && (verdict == Bad ==> d.reply == Unauthorized())
  {
    hide ParseStep;
    assert [input][..0] == [];
  }

  /** With nothing outstanding, nothing more happens to a connection. */
  lemma {:induction false} DeadStays(es: seq<Event>, more: seq<Event>, json: Json)
    requires var c := Live(es, json); c.started && c.reading == 0 && c.writing == 0
    ensures Live(es + more, json) == Live(es, json)
  {
    if more == [] {
      assert es + more == es;
    } else {
      DeadStays(es, more[..|more| - 1], json);
      assert (es + more)[..|es + more| - 1] == es + more[..|more| - 1];
    }
    hide ParseStep;
  }

  /** A failed read ends the connection without a reply, whatever completes after it. */
  lemma FailedReadIsSilent(es: seq<Event>, data: string, handled: Replies.Reply, more: seq<Event>, json: Json)
    requires Live(es, json).reading > 0
    ensures Live(es + [ReadDone(true, data, handled)] + more, json) == Live(es, json).(reading := 0)
    ensures Live(es, json).replies == 0
  {
    var e := ReadDone(true, data, handled);
    LifeIsOrderly(es, json);
    assert (es + [e])[..|es|] == es && (es + [e])[|es|] == e;
    DeadStays(es + [e], more, json);
    hide ParseStep;
  }

  /** And a reply that has gone out, or failed to, is the last thing that happens. */
  lemma ReplyIsLast(es: seq<Event>, error: bool, more: seq<Event>, json: Json)
    requires Live(es, json).writing > 0
    ensures Live(es + [WriteDone(error)] + more, json) == Live(es, json).(writing := 0, lent := None)
  {
    var e := WriteDone(error);
    LifeIsOrderly(es, json);
    assert (es + [e])[..|es|] == es && (es + [e])[|es|] == e;
    DeadStays(es + [e], more, json);
    hide ParseStep;
  }

  /** A printed request on a new connection: when its first read has all of it, it is answered at once;
      otherwise the rest, in any nonempty reads, brings about the one reply. */
  lemma PrintedRequestIsServed(fields: seq<RequestRoundTrip.Field>, k: nat, length: nat, body: string,
                               chunks: seq<string>, handled: Replies.Reply, json: Json)
    requires RequestRoundTrip.PlainFields(fields) && k < |fields| <= 10 && RequestRoundTrip.PlainBody(body)
    requires length <= INT_MAX && fields[k] == RequestRoundTrip.Field(CONTENT_LENGTH, Decimal(length))
    requires AllNonempty(chunks)
    requires if length <= |body| + 1 then chunks == [] else |body| + 1 + |Joined(chunks)| == length
    ensures var c := ReadAll(LifeStep(NEW_LIFE, Accepted, json), [RequestRoundTrip.Print(fields, body)], handled, json);
      var d := ReadAll(c, chunks, handled, json);
      var good := json("\r" + body + Joined(chunks)).Some?;
      && d.reading == 0 && d.writing == 1 && d.replies == 1
      && d.reply == (if good then handled else Unauthorized())
      && d.handlerCalls == (if good then 1 else 0)
  {
    RequestRoundTrip.PrintedRequestParses(fields, k, length, body, json);
    var input := RequestRoundTrip.Print(fields, body);
    FirstReadDecides(input, handled, json);
    FirstVerdict(input, json);
    hide ParseStep, Joined, RequestRoundTrip.Print, RequestRoundTrip.PlainFields, RequestRoundTrip.PlainBody;
    var c := ReadAll(LifeStep(NEW_LIFE, Accepted, json), [input], handled, json);
    if length <= |body| + 1 {
      JoinedNothing();
      assert "\r" + body + "" == "\r" + body;
    } else {
      if chunks == [] {
        JoinedNothing();
      }
      TailIsServedOnce(c, chunks, handled, json);
    }
  }

  lemma JoinedNothing()
    ensures Joined([]) == ""
  {
  }

  /** A first read that is not Bad ends the header phase, and is Complete exactly if its text is
      acceptable and long enough. */
  lemma FirstVerdict(input: string, json: Json)
    requires input != ""
    ensures var (st, verdict) := ParseStep(FRESH, input, json);
      && (verdict == More ==> !st.readHeader && st.readAmount < st.contentLength)
      && (HeaderPhase(input).Some? && verdict != More ==> (verdict == Complete <==> json(st.jsonRequest).Some?))
      && (verdict == Complete || verdict == More ==> HeaderPhase(input).Some?)
  {
    hide HeaderPhase;
  }

  /** The page for a bad request is a framed 401. */
  lemma BadIs401()
    ensures Replies.Framed(Unauthorized()) && Contains(Unauthorized().content, "401 Unauthorized")
    ensures Replies.StatusNumberIn(Replies.StatusLine(Unauthorized().status)) == Some(401)
  {
    Replies.StatusReadsBack(401);
    assert Replies.StatusText(401) == "401 Unauthorized";
    Replies.PageNamesStatus(401);
    hide Replies.StockContent, Replies.StatusText, Replies.StatusLine, Replies.StatusNumberIn, Contains;
  }

  // ---------- the object ----------

  class Conn {
    const request: Request
    const srvDb: ServerDb.SrvDb
    const json: Json
    var started: bool
    var reading: nat
    var writing: nat
    var handlerCalls: nat
    var replies: nat
    var reply: Replies.Reply
    var lent: Option<Replies.Reply>

    constructor (srvDb: ServerDb.SrvDb, json: Json)
      ensures this.srvDb == srvDb && this.json == json && fresh(request) && Now() == NEW_LIFE
    {
      this.srvDb, this.json := srvDb, json;
      request := new Request();
      started, reading, writing, handlerCalls, replies := false, 0, 0, 0, 0;
      reply, lent := NO_REPLY, None;
    }

    function Now(): Life
      reads this, request
    {
      Life(started, reading, writing, handlerCalls, replies, request.Now(), reply, lent)
    }

    /** start (source/connection.cpp:39-52). */
    method Start()
      requires !started
      modifies this
      ensures Now() == LifeStep(old(Now()), Accepted, json)
    {
      started := true;
      AsyncRead();
    }

    method AsyncRead()
      modifies this`reading
      ensures reading == old(reading) + 1
    {
      reading := reading + 1;
    }

    /** async_write of the connection's reply: the buffers of to_buffers are lent to it. */
    method AsyncWrite(rep: Replies.Reply)
      modifies this`reply, this`writing, this`replies, this`lent
      ensures reply == rep && writing == old(writing) + 1 && replies == old(replies) + 1 && lent == Some(rep)
    {
      reply := rep;
      writing := writing + 1;
      replies := replies + 1;
      lent := Some(reply);
    }

    /** handle_read (source/connection.cpp:54-93). `handled` is the reply the handler gave, if it was
        called; every reply that goes out is framed. */
    method HandleRead(error: bool, data: string, text: Requests.Answer -> string, garbage: Requests.Sight)
      returns (ghost handled: Replies.Reply, ghost answer: Requests.Answer)
      requires Orderly(Now()) && reading > 0 && (!error ==> data != "")
      modifies this, request, srvDb, srvDb.db
      ensures Now() == LifeStep(old(Now()), ReadDone(error, data, handled), json) && Orderly(Now())
      ensures replies > old(replies) ==> Replies.Framed(reply)
      ensures handlerCalls > old(handlerCalls) && old(srvDb.connectionStatus) ==>
        request.fields.Some? && Answers(old(Here()), request.fields.value, garbage, answer)
        && reply.content == Handler.ContentOf(answer, text)
      ensures handlerCalls == old(handlerCalls) ==> unchanged(srvDb) && unchanged(srvDb.db)
    {
      hide ParseStep, Replies.StockContent, Replies.SetHeaders, Answers, Here, Handler.ContentOf;
      handled, answer := NO_REPLY, Requests.Listing;
      reading := reading - 1;
      if !error {
        var result := Parser(request, data, json);
        CompleteHasFields(old(request.Now()), data, json);
        if result == Complete {
          handled, answer := CallHandler(text, garbage);
        } else if result == Bad {
          var rep := Replies.StockReply(401);
          AsyncWrite(rep);
        } else {
          AsyncRead();
        }
      }
    }

    /** Where this connection's session is: the tables, its LAST_INSERT_ID(), and how many statements
        it has sent. */
    ghost function Here(): (Tables.Tables, int, nat)
      reads srvDb, srvDb.db
    {
      (srvDb.db.All(), srvDb.db.lastId, srvDb.db.sent)
    }

    /** From `here`, this request ends where the session is now, with this answer. */
    ghost predicate Answers(here: (Tables.Tables, int, nat), req: Requests.Request,
      garbage: Requests.Sight, answer: Requests.Answer)
      reads srvDb, srvDb.db
    {
      srvDb.Ends(Requests.Local(here.0, here.1, Requests.Begin(srvDb.db.schema, req)), here.2, garbage, answer)
    }

    method CallHandler(text: Requests.Answer -> string, garbage: Requests.Sight)
      returns (handled: Replies.Reply, ghost answer: Requests.Answer)
      requires request.fields.Some? && reply == NO_REPLY
      modifies this, srvDb, srvDb.db
      ensures Now() == StartWrite(old(Now()).(handlerCalls := old(handlerCalls) + 1), handled)
      ensures Replies.Framed(handled) && reply == handled
      ensures old(srvDb.connectionStatus) ==>
        Answers(old(Here()), request.fields.value, garbage, answer) && reply.content == Handler.ContentOf(answer, text)
    {
      hide Handler.ContentOf, Handler.Replaces, Handler.PassesGate, Requests.Amid, Requests.Begin;
      handlerCalls := handlerCalls + 1;
      handled, answer := Handler.HandleRequest(request.fields.value, reply, srvDb, text, garbage);
      AsyncWrite(handled);
    }

    static lemma CompleteHasFields(st: State, data: string, json: Json)
      requires st.readHeader ==> data != ""
      ensures ParseStep(st, data, json).1 == Complete ==> ParseStep(st, data, json).0.fields.Some?
    {
    }

    /** handle_write (source/connection.cpp:95-108): no operation is started. */
    method HandleWrite(error: bool)
      requires writing > 0
      modifies this`writing, this`lent
      ensures Now() == LifeStep(old(Now()), WriteDone(error), json)
    {
      writing := writing - 1;
      lent := None;
    }
  }
}
