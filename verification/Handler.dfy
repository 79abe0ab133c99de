/** The dispatcher (source/request_handler.cpp:30-241): one request in, one framed reply out. */
module Handler {
  import opened Text
  import opened Tables
  import opened Requests
  import opened ServerDb
  import Replies
  import QueryText

  /** The text put in a reply: a result code's JSON, a contest key or an image in its wrapper, or what
      `text` prints for the lists. */
  function ContentOf(answer: Answer, text: Answer -> string): string {
    match answer
    case Code(code) => Replies.JsonContent(code)
    case ContestKey(id) => KeyContent(id)
    case Picture(image) => ImageContent(image)
    case _ => text(answer)
  }

  /** Whether the dispatcher answers such a request with json_reply, replacing the reply it was given,
      rather than by adding text to it. */
  predicate Replaces(req: Request) {
    var kind := KindOf(req.requestid);
    kind.CreateUser? || kind.Authenticate? || kind.UpdateImage? || ParameterFault(kind, req) != 0
  }

  /** A request that begins at `l` gets past authentication. */
  ghost predicate PassesGate(srvDb: SrvDb, l: Local, sent: nat)
    reads srvDb.db
  {
    l.th.pc.Login? && srvDb.Fits(l, sent)
  }

  /** A request that has just authenticated, in a session. */
  ghost predicate LoggedIn(srvDb: SrvDb, m: Local, req: Request)
    reads srvDb, srvDb.db
  {
    && srvDb.connectionStatus && srvDb.At(m)
    && QueryText.Accepted(srvDb.db.schema.reserved, req.username)
    && var th := Begin(srvDb.db.schema, req);
       m.th == th.(pc := AfterLogin(srvDb.db.schema, th))
  }

  /** createcontest (source/request_handler.cpp:80-107). */
  method HandleCreateContest(req: Request, srvDb: SrvDb, garbage: Sight, ghost m: Local)
    returns (answer: Answer, direct: bool)
    requires LoggedIn(srvDb, m, req) && m.th.kind.CreateContest?
    modifies srvDb, srvDb.db
    ensures srvDb.Ends(m, old(srvDb.db.sent), garbage, answer) && direct == Replaces(req) && (direct ==> answer.Code?)
  {
    hide Amid, Execute, LocalStep, MayUpdate, Resume, NextStatement, QueryText.Accepted, Stoi, ContestStart;
    ghost var sent := srvDb.db.sent;
    if m.th.pc.Done? {
      srvDb.RefusedEnds(m, sent, garbage);
    }
    if req.p1 == "" {
      return Code(1004), true;
    }
    if req.p2 == "" {
      return Code(1004), true;
    }
    var endtime := if req.p3 == "" then "0000-00-00 00:00:00" else req.p3;
    direct := false;
    answer := srvDb.CreateContest(req.username, req.p1, req.p2, endtime, m, garbage);
  }

  /** updateimage (source/request_handler.cpp:108-128). */
  method HandleUpdateImage(req: Request, srvDb: SrvDb, garbage: Sight, ghost m: Local)
    returns (answer: Answer, direct: bool)
    requires LoggedIn(srvDb, m, req) && m.th.kind.UpdateImage?
    modifies srvDb, srvDb.db
    ensures srvDb.Ends(m, old(srvDb.db.sent), garbage, answer) && direct == Replaces(req) && (direct ==> answer.Code?)
  {
    hide Amid, Execute, LocalStep, MayUpdate, Resume, NextStatement, QueryText.Accepted, Stoi, ContestStart;
    ghost var sent := srvDb.db.sent;
    if m.th.pc.Done? {
      srvDb.RefusedEnds(m, sent, garbage);
    }
    if req.p2 == "" {
      return Code(1004), true;
    }
    if req.p4 == "" {
      return Code(1004), true;
    }
    var contestid := Stoi(req.p1);
    var slot := Stoi(req.p3);
    if contestid.None? || slot.None? {
      return Code(1013), true;
    }
    var code := srvDb.UpdateImage(req.username, contestid.value, req.p2, slot.value, req.p4, garbage, m);
    return Code(code), true;
  }

  /** addfriend (source/request_handler.cpp:129-142). */
  method HandleAddFriend(req: Request, srvDb: SrvDb, garbage: Sight, ghost m: Local)
    returns (answer: Answer, direct: bool)
    requires LoggedIn(srvDb, m, req) && m.th.kind.AddFriend?
    modifies srvDb, srvDb.db
    ensures srvDb.Ends(m, old(srvDb.db.sent), garbage, answer) && direct == Replaces(req) && (direct ==> answer.Code?)
  {
    hide Amid, Execute, LocalStep, MayUpdate, Resume, NextStatement, QueryText.Accepted, Stoi, ContestStart;
    ghost var sent := srvDb.db.sent;
    if m.th.pc.Done? {
      srvDb.RefusedEnds(m, sent, garbage);
    }
    if req.p1 == "" {
      return Code(1004), true;
    }
    direct := false;
    answer := srvDb.AddFriend(req.username, req.p1, m, garbage);
  }

  /** removefriend (source/request_handler.cpp:143-156). */
  method HandleRemoveFriend(req: Request, srvDb: SrvDb, garbage: Sight, ghost m: Local)
    returns (answer: Answer, direct: bool)
    requires LoggedIn(srvDb, m, req) && m.th.kind.RemoveFriend?
    modifies srvDb, srvDb.db
    ensures srvDb.Ends(m, old(srvDb.db.sent), garbage, answer) && direct == Replaces(req) && (direct ==> answer.Code?)
  {
    hide Amid, Execute, LocalStep, MayUpdate, Resume, NextStatement, QueryText.Accepted, Stoi, ContestStart;
    ghost var sent := srvDb.db.sent;
    if m.th.pc.Done? {
      srvDb.RefusedEnds(m, sent, garbage);
    }
    if req.p1 == "" {
      return Code(1004), true;
    }
    direct := false;
    answer := srvDb.RemoveFriend(req.username, req.p1, m, garbage);
  }

  /** vote (source/request_handler.cpp:175-193). */
  method HandleVote(req: Request, srvDb: SrvDb, garbage: Sight, ghost m: Local)
    returns (answer: Answer, direct: bool)
    requires LoggedIn(srvDb, m, req) && m.th.kind.Vote?
    modifies srvDb, srvDb.db
    ensures srvDb.Ends(m, old(srvDb.db.sent), garbage, answer) && direct == Replaces(req) && (direct ==> answer.Code?)
  {
    hide Amid, Execute, LocalStep, MayUpdate, Resume, NextStatement, QueryText.Accepted, Stoi, ContestStart;
    ghost var sent := srvDb.db.sent;
    if m.th.pc.Done? {
      srvDb.RefusedEnds(m, sent, garbage);
    }
    if req.p1 == "" {
      return Code(1004), true;
    }
    if req.p2 == "" {
      return Code(1004), true;
    }
    var contestid := Stoi(req.p1);
    var slot := Stoi(req.p2);
    if contestid.None? || slot.None? {
      return Code(1013), true;
    }
    direct := false;
    answer := srvDb.Vote(req.username, contestid.value, slot.value, m, garbage);
  }

  /** getimage (source/request_handler.cpp:194-212). */
  method HandleGetImage(req: Request, srvDb: SrvDb, garbage: Sight, ghost m: Local)
    returns (answer: Answer, direct: bool)
    requires LoggedIn(srvDb, m, req) && m.th.kind.GetImage?
    modifies srvDb, srvDb.db
    ensures srvDb.Ends(m, old(srvDb.db.sent), garbage, answer) && direct == Replaces(req) && (direct ==> answer.Code?)
  {
    hide Amid, Execute, LocalStep, MayUpdate, Resume, NextStatement, QueryText.Accepted, Stoi, ContestStart;
    ghost var sent := srvDb.db.sent;
    if m.th.pc.Done? {
      srvDb.RefusedEnds(m, sent, garbage);
    }
    if req.p1 == "" {
      return Code(1004), true;
    }
    if req.p2 == "" {
      return Code(1004), true;
    }
    var contestid := Stoi(req.p1);
    var slot := Stoi(req.p2);
    if contestid.None? || slot.None? {
      return Code(1013), true;
    }
    direct := false;
    answer := srvDb.PublicGetImage(contestid.value, slot.value, m, garbage);
  }

  /** The commands of an authenticated request, one after the other (source/request_handler.cpp:57-222). */
  method Dispatch(req: Request, srvDb: SrvDb, garbage: Sight, ghost m: Local)
    returns (answer: Answer, direct: bool)
    requires LoggedIn(srvDb, m, req) && !m.th.kind.CreateUser? && !m.th.kind.Authenticate?
    modifies srvDb, srvDb.db
    ensures srvDb.Ends(m, old(srvDb.db.sent), garbage, answer) && direct == Replaces(req) && (direct ==> answer.Code?)
  {
    hide Amid, Execute, LocalStep, MayUpdate, Resume, NextStatement, QueryText.Accepted, Stoi, ContestStart;
    ghost var sent := srvDb.db.sent;
    if m.th.pc.Done? {
      srvDb.RefusedEnds(m, sent, garbage);
    }
    direct := false;
    match req.requestid
    case "createcontest" => answer, direct := HandleCreateContest(req, srvDb, garbage, m);
    case "updateimage" => answer, direct := HandleUpdateImage(req, srvDb, garbage, m);
    case "addfriend" => answer, direct := HandleAddFriend(req, srvDb, garbage, m);
    case "removefriend" => answer, direct := HandleRemoveFriend(req, srvDb, garbage, m);
    case "getmyfriends" => answer := srvDb.ListPeople(req.username, true, m, garbage);
    case "getfriendrequests" => answer := srvDb.ListPeople(req.username, false, m, garbage);
    case "vote" => answer, direct := HandleVote(req, srvDb, garbage, m);
    case "getimage" => answer, direct := HandleGetImage(req, srvDb, garbage, m);
    case "getmycontests" | "getcontest" | "getrandomcontests" | "gettopcontests" => answer := Listing;
    case _ => return Code(1007), true;
  }

  lemma BeginsWithLogin(schema: Schema, req: Request)
    requires req.requestid != "createuser"
    ensures var th := Begin(schema, req);
      && th.req == req && !th.kind.CreateUser?
      && (th.kind.Authenticate? <==> req.requestid == "authenticate")
      && th.pc == if QueryText.Accepted(schema.reserved, req.username)
                    && QueryText.Accepted(schema.reserved, req.password)
                  then Login else Refuse(1010)
  {
    KindNames(req.requestid);
    hide KindOf, QueryText.Accepted, Number;
  }

  lemma KindNames(requestid: string)
    ensures KindOf(requestid).CreateUser? <==> requestid == "createuser"
    ensures KindOf(requestid).Authenticate? <==> requestid == "authenticate"
  {
  }

  lemma AuthenticateIsDone(schema: Schema, th: Thread)
    requires th.kind.Authenticate?
    ensures AfterLogin(schema, th) == Refuse(1009)
  {
  }

  /** handle_request. The answer is the one the request's step machine ends with, and the reply carries
      its text, appended to the reply that was passed in exactly when the request passes the gate and is
      none of those answered with a reply of their own. Without a database connection the request is
      refused and nothing is sent to it. */
  method HandleRequest(req: Request, rep: Replies.Reply, srvDb: SrvDb, text: Answer -> string, garbage: Sight)
    returns (r: Replies.Reply, ghost answer: Answer)
    modifies srvDb, srvDb.db
    ensures Replies.Framed(r)
    ensures !old(srvDb.connectionStatus) ==> r.status == 503 && unchanged(srvDb.db)
    ensures old(srvDb.connectionStatus) ==>
      var l := Local(old(srvDb.db.All()), old(srvDb.db.lastId), Begin(srvDb.db.schema, req));
      && r.status == 200
      && srvDb.Ends(l, old(srvDb.db.sent), garbage, answer)
      && r.content == (if !Replaces(req) && PassesGate(srvDb, l, old(srvDb.db.sent)) then rep.content else "")
                      + ContentOf(answer, text)
  {
    answer := Listing;
    if !srvDb.connectionStatus {
      r := Replies.StockReply(503);
      return;
    }
    ghost var l := Local(srvDb.db.All(), srvDb.db.lastId, Begin(srvDb.db.schema, req));
    hide Amid, Execute, LocalStep, MayUpdate, Resume, NextStatement, QueryText.Accepted, Stoi, ContestStart, KindOf;
    hide Replies.SetHeaders, Replies.JsonContent, AfterLogin, Begin;
    if req.requestid == "createuser" {
      var dbResult := HandleCreateUser(req, srvDb, garbage, l);
      answer := Code(dbResult);
      r := Replies.JsonReply(dbResult);
    } else if req.requestid == "authenticate" {
      r, answer := HandleAuthenticate(req, srvDb, garbage, l);
    } else {
      r, answer := HandleCommand(req, rep, srvDb, text, garbage, l);
    }
  }

  /** authenticate (source/request_handler.cpp:47-54). */
  method HandleAuthenticate(req: Request, srvDb: SrvDb, garbage: Sight, ghost l: Local)
    returns (r: Replies.Reply, ghost answer: Answer)
    requires srvDb.connectionStatus && srvDb.At(l)
    requires l.th == Begin(srvDb.db.schema, req) && req.requestid == "authenticate"
    modifies srvDb, srvDb.db
    ensures Replies.Framed(r) && r.status == 200 && srvDb.Ends(l, old(srvDb.db.sent), garbage, answer)
    ensures answer.Code? && r.content == Replies.JsonContent(answer.code)
  {
    BeginsWithLogin(srvDb.db.schema, req);
    hide Amid, Execute, LocalStep, Resume, NextStatement, QueryText.Accepted, KindOf;
    hide Replies.SetHeaders, Replies.JsonContent, AfterLogin, Begin;
    if l.th.pc.Done? {
      srvDb.RefusedEnds(l, srvDb.db.sent, garbage);
    }
    var ok;
    ghost var m;
    ok, m := srvDb.AuthenticateUser(req.username, req.password, l, garbage);
    if ok {
      AuthenticateIsDone(srvDb.db.schema, l.th);
      answer := Code(1009);
      r := Replies.JsonReply(1009);
    } else {
      answer := Code(1010);
      r := Replies.JsonReply(1010);
    }
  }

  /** The gate in front of every other command: authenticate, then dispatch
      (source/request_handler.cpp:56-236). */
  method HandleCommand(req: Request, rep: Replies.Reply, srvDb: SrvDb, text: Answer -> string,
    garbage: Sight, ghost l: Local)
    returns (r: Replies.Reply, ghost answer: Answer)
    requires srvDb.connectionStatus && srvDb.At(l)
    requires l.th == Begin(srvDb.db.schema, req) && req.requestid != "createuser" && req.requestid != "authenticate"
    modifies srvDb, srvDb.db
    ensures Replies.Framed(r) && r.status == 200 && srvDb.Ends(l, old(srvDb.db.sent), garbage, answer)
    ensures r.content == (if !Replaces(req) && PassesGate(srvDb, l, old(srvDb.db.sent)) then rep.content else "")
                         + ContentOf(answer, text)
  {
    BeginsWithLogin(srvDb.db.schema, req);
    hide Amid, Execute, LocalStep, MayUpdate, Resume, NextStatement, QueryText.Accepted, Stoi, ContestStart, KindOf;
    hide Replies.SetHeaders, Replies.JsonContent, AfterLogin, Begin;
    if l.th.pc.Done? {
      srvDb.RefusedEnds(l, srvDb.db.sent, garbage);
    }
    var ok;
    ghost var m;
    ok, m := srvDb.AuthenticateUser(req.username, req.password, l, garbage);
    if ok {
      var results, direct := Dispatch(req, srvDb, garbage, m);
      answer := results;
      if direct {
        r := Replies.JsonReply(results.code);
      } else {
        r := Complete(rep, results, text);
      }
    } else {
      answer := Code(1010);
      r := Replies.JsonReply(1010);
    }
  }

  /** The reply a text result goes into (source/request_handler.cpp:229-236). */
  method Complete(rep: Replies.Reply, results: Answer, text: Answer -> string) returns (r: Replies.Reply)
    ensures Replies.Framed(r) && r.status == 200 && r.content == rep.content + ContentOf(results, text)
  {
    r := rep.(status := 200, content := rep.content + ContentOf(results, text));
    r := Replies.SetHeaders(r, "application/json");
  }

  method HandleCreateUser(req: Request, srvDb: SrvDb, garbage: Sight, ghost l: Local) returns (code: int)
    requires srvDb.connectionStatus && srvDb.At(l)
    requires l.th == Begin(srvDb.db.schema, req) && req.requestid == "createuser"
    modifies srvDb, srvDb.db
    ensures srvDb.Ends(l, old(srvDb.db.sent), garbage, Code(code))
  {
    hide Amid, Execute, LocalStep, Resume, NextStatement, QueryText.Accepted, Stoi;
    if l.th.pc.Done? {
      srvDb.RefusedEnds(l, srvDb.db.sent, garbage);
    }
    if req.p1 == "" {
      return 1004;
    }
    code := srvDb.CreateUser(req.username, req.password, req.p1, l, garbage);
  }
}
