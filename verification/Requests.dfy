/** Requests as state machines. Each request is a program counter with its locals; one step sends one
    SQL statement and acts on its result. A run is any interleaving of such steps, one request per
    connection, as the server's thread pool allows (source/server.cpp:42-56, source/connection.cpp:27). */
module Requests {
  import opened Text
  import opened Tables
  import QueryText

  /** The fields of a parsed request (header/request.h:40-46). */
  datatype Request = Request(requestid: string, username: string, password: string,
                             p1: string, p2: string, p3: string, p4: string)

  datatype Kind = CreateUser | Authenticate | CreateContest | UpdateImage | AddFriend | RemoveFriend
                | MyFriends | FriendRequests | Vote | GetImage | Browse | Unknown

  function KindOf(requestid: string): Kind {
    match requestid
    case "createuser" => CreateUser
    case "authenticate" => Authenticate
    case "createcontest" => CreateContest
    case "updateimage" => UpdateImage
    case "addfriend" => AddFriend
    case "removefriend" => RemoveFriend
    case "getmyfriends" => MyFriends
    case "getfriendrequests" => FriendRequests
    case "vote" => Vote
    case "getimage" => GetImage
    case "getmycontests" | "getcontest" | "getrandomcontests" | "gettopcontests" => Browse
    case _ => Unknown
  }

  /** What a request answers: a result code, or the data of one of the queries. `Board` and `Names`
      stand for the rows the JSON text is built from. */
  datatype Answer =
    | Code(code: int)
    | ContestKey(id: int)
    | Board(scores: Option<(nat, nat)>)
    | Names(ids: set<int>)
    | Picture(text: string)
    | Listing

  /** What updateImage knows about the contest row: what its SELECT returned, or the values that
      happened to be in its uninitialised locals when there was no row. */
  datatype Sight = Sight(found: bool, user1: int, user2: int, permissions: int)

  datatype Pc =
    | Login
    | UserCheck
    | UserInsert
    | PermitUser
    | CreatorUser(permission: int)
    | ContestInsert(uid: int, permission: int)
    | ContestLastId(uid: int, permission: int)
    | ImageUser
    | ImageSight(uid: int)
    | ImageOwner(uid: int, sight: Sight)
    | ImageInsert(uid: int, sight: Sight, owner: int)
    | ImageLastId(uid: int, sight: Sight)
    | ThumbOwner(uid: int, sight: Sight, image: int)
    | ThumbInsert(uid: int, sight: Sight, image: int, owner: int)
    | ThumbLastId(uid: int, sight: Sight, image: int)
    | SlotUpdate(uid: int, sight: Sight, image: int, thumb: int)
    | FriendUser
    | FriendOther(uid: int)
    | FriendInsert(uid: int, other: int)
    | UnfriendOne(uid: int, other: int)
    | UnfriendTwo(uid: int, other: int)
    | ListUser
    | ListRows(uid: int)
    | VoteUser
    | VoteInsert(uid: int)
    | VoteUpdate(uid: int)
    | VoteScores(uid: int)
    | VoteRetry(uid: int)
    | PictureId
    | PictureText(image: int)
    | Done(answer: Answer)

  /** How far a vote got, for the accounting of the theorems. No code reads it. */
  datatype Ballot = NoBallot | Pending(voter: int) | Counted(voter: int) | Lost(voter: int)

  /** One request. `made` lists the row ids the database gave to this request's own inserts; like
      `ballot`, only the theorems read it. */
  datatype Thread = Thread(req: Request, kind: Kind, contest: int, slot: int, pc: Pc,
                           made: seq<int>, ballot: Ballot)

  function Number(s: string): int {
    match Stoi(s) case Some(n) => n case None => 0
  }

  /** The parameter checks the dispatcher makes after authentication; 0 when there is nothing to
      refuse (source/request_handler.cpp:56-222). */
  function ParameterFault(kind: Kind, req: Request): int {
    match kind
    case CreateContest => if req.p1 == "" || req.p2 == "" then 1004 else 0
    case UpdateImage =>
      if req.p2 == "" || req.p4 == "" then 1004
      else if Stoi(req.p1).None? || Stoi(req.p3).None? then 1013 else 0
    case AddFriend | RemoveFriend => if req.p1 == "" then 1004 else 0
    case Vote | GetImage =>
      if req.p1 == "" || req.p2 == "" then 1004
      else if Stoi(req.p1).None? || Stoi(req.p2).None? then 1013 else 0
    case Unknown => 1007
    case _ => 0
  }

  function Endtime(req: Request): string {
    if req.p3 == "" then "0000-00-00 00:00:00" else req.p3
  }

  function Refuse(code: int): Pc {
    Done(Code(code))
  }

  /** The first step of a request. */
  function Begin(schema: Schema, req: Request): Thread {
    var kind := KindOf(req.requestid);
    var named := QueryText.Accepted(schema.reserved, req.username) && QueryText.Accepted(schema.reserved, req.password);
    var pc :=
      if kind.CreateUser? then
        if req.p1 == "" then Refuse(1004)
        else if !named || !QueryText.Accepted(schema.reserved, req.p1) then Refuse(1013)
        else UserCheck
      else if !named then Refuse(1010)
      else Login;
    Thread(req, kind, Number(req.p1), Number(if kind.UpdateImage? then req.p3 else req.p2), pc, [], NoBallot)
  }

  /** Where an authenticated request goes on. */
  function AfterLogin(schema: Schema, th: Thread): Pc {
    var fault := ParameterFault(th.kind, th.req);
    if fault != 0 then Refuse(fault)
    else
      match th.kind
      case Authenticate => Refuse(1009)
      case CreateContest => ContestStart(schema, th.req)
      case UpdateImage => ImageUser
      case AddFriend | RemoveFriend =>
        if QueryText.Accepted(schema.reserved, th.req.p1) then FriendUser else Refuse(1013)
      case MyFriends | FriendRequests => ListUser
      case Vote => if th.slot == 1 || th.slot == 2 then VoteUser else Refuse(1001)
      case GetImage => if th.contest == 0 || !(th.slot == 1 || th.slot == 2) then Refuse(1003) else PictureId
      case _ => Done(Listing)
  }

  /** A permission is -1, 0 or, when it is no number at all, the name of a user. */
  function ContestStart(schema: Schema, req: Request): Pc {
    if !QueryText.Accepted(schema.reserved, req.p1) || !QueryText.Accepted(schema.reserved, req.p2)
       || !QueryText.Accepted(schema.reserved, Endtime(req)) then Refuse(1013)
    else
      match Stoi(req.p2)
      case None => PermitUser
      case Some(n) => if n > 0 || n < -1 then Refuse(1013) else CreatorUser(n)
  }

  /** The steps an authenticated request can go on with, per kind. */
  lemma AfterLoginGoesTo(schema: Schema, th: Thread)
    ensures var pc := AfterLogin(schema, th);
      match th.kind
      case CreateContest =>
        || (pc.PermitUser? && Stoi(th.req.p2).None?)
        || (pc.CreatorUser? && Stoi(th.req.p2) == Some(pc.permission) && (pc.permission == -1 || pc.permission == 0))
        || (pc.Done? && pc.answer.Code?)
      case UpdateImage => pc.ImageUser? || (pc.Done? && pc.answer.Code?)
      case AddFriend | RemoveFriend => pc.FriendUser? || (pc.Done? && pc.answer.Code?)
      case MyFriends | FriendRequests => pc.ListUser?
      case Vote => (pc.VoteUser? && (th.slot == 1 || th.slot == 2)) || (pc.Done? && pc.answer.Code?)
      case GetImage => (pc.PictureId? && (th.slot == 1 || th.slot == 2)) || (pc.Done? && pc.answer.Code?)
      case _ => pc.Done? && (pc.answer.Code? || pc.answer.Listing?)
  {
    if th.kind.CreateContest? && ParameterFault(th.kind, th.req) == 0 {
      assert AfterLogin(schema, th) == ContestStart(schema, th.req);
    }
  }

  /** The slot check of updateImage, arm by arm (source/srv_db.cpp:580-607). */
  predicate MayUpdate(slot: int, uid: int, sight: Sight) {
    if sight.permissions == -2 then false
    else if slot == 1 && (sight.user1 == 0 || sight.user1 == uid) then true
    else if slot == 2 && (sight.user2 == 0 || sight.user2 == uid) then true
    else if sight.permissions == 0 then true
    else if sight.permissions == -1 then true
    else if slot == 1 && sight.user1 == 0 && sight.permissions == uid then true
    else slot == 2 && sight.user2 == 0 && sight.permissions == uid
  }

  /** The statement a request sends next. */
  function NextStatement(th: Thread): Statement {
    var req := th.req;
    match th.pc
    case Login | UserCheck | CreatorUser(_) | ImageUser | ImageOwner(_, _) | ThumbOwner(_, _, _)
       | FriendUser | ListUser | VoteUser => SelectUser(req.username)
    case UserInsert => InsertUser(req.username, req.password, req.p1)
    case PermitUser => SelectUser(req.p2)
    case ContestInsert(uid, permission) => InsertContest(uid, req.p1, permission, Endtime(req))
    case ContestLastId(_, _) | ImageLastId(_, _) | ThumbLastId(_, _, _) => SelectLastId
    case ImageSight(_) => SelectContest(th.contest)
    case ImageInsert(_, _, owner) => InsertImage(owner, req.p2)
    case ThumbInsert(_, _, _, owner) => InsertImage(owner, req.p4)
    case SlotUpdate(uid, _, image, thumb) => UpdateSlot(th.contest, th.slot, image, uid, thumb)
    case FriendOther(_) => SelectUser(req.p1)
    case FriendInsert(uid, other) => InsertFriend(uid, other)
    case UnfriendOne(uid, other) => DeleteFriend(uid, other)
    case UnfriendTwo(uid, other) => DeleteFriend(other, uid)
    case ListRows(uid) => if th.kind.MyFriends? then SelectFriends(uid) else SelectRequests(uid)
    case VoteInsert(uid) => InsertVoted(uid, th.contest)
    case VoteUpdate(_) => AddVote(th.contest, th.slot)
    case VoteScores(_) | VoteRetry(_) => SelectScores(th.contest)
    case PictureId => SelectImageId(th.contest, th.slot)
    case PictureText(image) => SelectImage(image)
    case Done(_) => NoStatement
  }

  /** getUserID's answer: 0 on a failed query or an unknown name. */
  function UserId(r: Result): int {
    if r.Account? then r.id else 0
  }

  /** LAST_INSERT_ID() as the client reads it; 0 on a failed query. */
  function KeyOf(r: Result): int {
    if r.LastId? then r.id else 0
  }

  /** Where a request goes on with the result of its statement. `junk` is what the uninitialised
      locals of updateImage hold. */
  function Resume(schema: Schema, th: Thread, r: Result, junk: Sight): Pc {
    match th.pc
    case Login =>
      if r.Account? && r.password == th.req.password then AfterLogin(schema, th) else Refuse(1010)
    case UserCheck =>
      if !r.Account? then Refuse(1003)
      else if r.name == th.req.username then Refuse(1006) else UserInsert
    case UserInsert =>
      if r.Success? then Refuse(1005) else if r.EmailTaken? then Refuse(1008) else Refuse(1003)
    case PermitUser => if UserId(r) == 0 then Refuse(1013) else CreatorUser(UserId(r))
    case CreatorUser(permission) =>
      if UserId(r) == 0 then Refuse(1013) else ContestInsert(UserId(r), permission)
    case ContestInsert(uid, permission) =>
      if r.Success? then ContestLastId(uid, permission) else Refuse(1003)
    case ContestLastId(_, _) => if r.LastId? then Done(ContestKey(r.id)) else Refuse(1003)
    case ImageUser => if UserId(r) == 0 then Refuse(1002) else ImageSight(UserId(r))
    case ImageSight(uid) =>
      if r.Failure? then Refuse(1012)
      else
        var sight := if r.ContestFound? then Sight(true, r.row.user1, r.row.user2, r.row.permissions)
                     else junk.(found := false);
        if MayUpdate(th.slot, uid, sight) then ImageOwner(uid, sight) else Refuse(1000)
    case ImageOwner(uid, sight) =>
      if UserId(r) == 0 then Refuse(999) else ImageInsert(uid, sight, UserId(r))
    case ImageInsert(uid, sight, _) => if r.Success? then ImageLastId(uid, sight) else Refuse(999)
    case ImageLastId(uid, sight) =>
      if KeyOf(r) == 0 then Refuse(999) else ThumbOwner(uid, sight, KeyOf(r))
    case ThumbOwner(uid, sight, image) =>
      if UserId(r) == 0 then Refuse(999) else ThumbInsert(uid, sight, image, UserId(r))
    case ThumbInsert(uid, sight, image, _) => if r.Success? then ThumbLastId(uid, sight, image) else Refuse(999)
    case ThumbLastId(uid, sight, image) =>
      if KeyOf(r) == 0 then Refuse(999)
      else if th.slot == 1 || th.slot == 2 then SlotUpdate(uid, sight, image, KeyOf(r))
      else Refuse(1013)
    case SlotUpdate(_, _, _, _) => if r.Success? then Refuse(1011) else Refuse(1012)
    // Both lookups are made before either is tested; a failed first one is remembered as 0.
    case FriendUser => FriendOther(UserId(r))
    case FriendOther(uid) =>
      if uid == 0 || UserId(r) == 0 then Refuse(1013)
      else if th.kind.AddFriend? then FriendInsert(uid, UserId(r)) else UnfriendOne(uid, UserId(r))
    case FriendInsert(_, _) => if r.Success? then Refuse(1000) else Refuse(1003)
    case UnfriendOne(uid, other) => if r.Success? then UnfriendTwo(uid, other) else Refuse(1003)
    case UnfriendTwo(_, _) => if r.Success? then Refuse(1000) else Refuse(1003)
    case ListUser => if UserId(r) == 0 then Refuse(1013) else ListRows(UserId(r))
    case ListRows(_) => if r.People? then Done(Names(r.ids)) else Refuse(1003)
    case VoteUser => if UserId(r) == 0 then Refuse(1001) else VoteInsert(UserId(r))
    case VoteInsert(uid) => if r.Success? then VoteUpdate(uid) else VoteRetry(uid)
    case VoteUpdate(uid) => if r.Success? then VoteScores(uid) else VoteRetry(uid)
    case VoteScores(uid) => if r.Failure? then VoteRetry(uid) else Done(Board(ScoresOf(r)))
    case VoteRetry(_) => if r.Failure? then Refuse(1001) else Done(Board(ScoresOf(r)))
    // With no contest row the image id keeps its initial -1, which no image has.
    case PictureId => if r.Failure? then Refuse(1003) else PictureText(if r.ImageId? then r.id else -1)
    case PictureText(_) => if r.Failure? then Refuse(1003) else Done(Picture(if r.ImageFound? then r.text else ""))
    case Done(_) => th.pc
  }

  function ScoresOf(r: Result): Option<(nat, nat)> {
    if r.Scores? then Some((r.score1, r.score2)) else None
  }

  // ---------- steps ----------

  /** What one connection works on: the shared tables, its own LAST_INSERT_ID() and its request. */
  datatype Local = Local(T: Tables, last: int, th: Thread)

  function Observe(T: Tables, th: Thread, st: Statement, out: Outcome): Thread {
    var made := if out.result.Success? && (st.InsertContest? || st.InsertImage?) then th.made + [out.key] else th.made;
    var ballot :=
      if st.InsertVoted? && out.result.Success? then Pending(st.user)
      else if st.AddVote? && th.ballot.Pending? then
        if out.result.Success? && T.IsContest(st.contest) then Counted(th.ballot.voter) else Lost(th.ballot.voter)
      else th.ballot;
    th.(made := made, ballot := ballot)
  }

  /** One statement of one connection. */
  function LocalStep(schema: Schema, l: Local, ok: bool, junk: Sight): Local {
    var st := NextStatement(l.th);
    var out := Execute(schema, l.T, l.last, st, ok);
    var th := Observe(l.T, l.th, st, out);
    Local(out.tables, if out.setsKey then out.key else l.last,
          th.(pc := Resume(schema, l.th, out.result, junk)))
  }

  /** The server: shared tables and, per connection, LAST_INSERT_ID() and the request. A finished
      request stays in `threads`; a connection serves one request. */
  datatype Sys = Sys(schema: Schema, T: Tables, last: map<nat, int>, threads: map<nat, Thread>)
  {
    ghost predicate Active(t: nat) {
      t in threads && t in last && !threads[t].pc.Done?
    }

    function View(t: nat): Local
      requires t in threads && t in last
    {
      Local(T, last[t], threads[t])
    }

    function Put(t: nat, l: Local): Sys {
      Sys(schema, l.T, last[t := l.last], threads[t := l.th])
    }
  }

  datatype Event =
    | Arrive(t: nat, req: Request)
    | Send(t: nat, ok: bool, junk: Sight)

  /** Events that cannot happen leave the server as it is, so every sequence of events is a run. */
  function Step(s: Sys, e: Event): Sys {
    match e
    case Arrive(t, req) =>
      if t in s.threads || !Admissible(req) then s
      else s.Put(t, Local(s.T, 0, Begin(s.schema, req)))
    case Send(t, ok, junk) =>
      if t !in s.threads || t !in s.last || s.threads[t].pc.Done? then s
      else s.Put(t, LocalStep(s.schema, s.View(t), ok, junk))
  }

  /** Image texts go into their INSERT unfiltered. The model covers exactly the texts that the query
      carries unchanged, as it does base64; see QueryText.InsertImageTokenisesIff. */
  predicate Admissible(req: Request) {
    KindOf(req.requestid).UpdateImage? ==> QueryText.Verbatim(req.p2) && QueryText.Verbatim(req.p4)
  }

  function Init(schema: Schema): Sys {
    Sys(schema, EMPTY, map[], map[])
  }

  function RunFrom(s: Sys, es: seq<Event>): Sys {
    if es == [] then s else Step(RunFrom(s, es[..|es| - 1]), es[|es| - 1])
  }

  function Run(schema: Schema, es: seq<Event>): Sys {
    RunFrom(Init(schema), es)
  }

  lemma {:induction false} RunAppend(s: Sys, es: seq<Event>, fs: seq<Event>)
    ensures RunFrom(s, es + fs) == RunFrom(RunFrom(s, es), fs)
  {
    if fs == [] {
      assert es + fs == es;
    } else {
      RunAppend(s, es, fs[..|fs| - 1]);
      assert (es + fs)[..|es + fs| - 1] == es + fs[..|fs| - 1];
    }
  }

  lemma RunSnoc(s: Sys, es: seq<Event>, e: Event)
    ensures RunFrom(s, es + [e]) == Step(RunFrom(s, es), e)
  {
    assert (es + [e])[..|es|] == es;
  }

  // ---------- every request ends ----------

  /** An upper bound on the statements still to send. */
  function StepsLeft(pc: Pc): nat {
    match pc
    case Login => 11
    case UserCheck => 2
    case UserInsert => 1
    case PermitUser => 4
    case CreatorUser(_) => 3
    case ContestInsert(_, _) => 2
    case ContestLastId(_, _) => 1
    case ImageUser => 9
    case ImageSight(_) => 8
    case ImageOwner(_, _) => 7
    case ImageInsert(_, _, _) => 6
    case ImageLastId(_, _) => 5
    case ThumbOwner(_, _, _) => 4
    case ThumbInsert(_, _, _, _) => 3
    case ThumbLastId(_, _, _) => 2
    case SlotUpdate(_, _, _, _) => 1
    case FriendUser => 4
    case FriendOther(_) => 3
    case FriendInsert(_, _) => 1
    case UnfriendOne(_, _) => 2
    case UnfriendTwo(_, _) => 1
    case ListUser => 2
    case ListRows(_) => 1
    case VoteUser => 5
    case VoteInsert(_) => 4
    case VoteUpdate(_) => 3
    case VoteScores(_) => 2
    case VoteRetry(_) => 1
    case PictureId => 2
    case PictureText(_) => 1
    case Done(_) => 0
  }

  lemma EachResultCountsDown(schema: Schema, th: Thread, r: Result, junk: Sight)
    requires !th.pc.Done?
    ensures StepsLeft(Resume(schema, th, r, junk)) < StepsLeft(th.pc)
  {
    hide AfterLogin, MayUpdate;
    if th.pc.Login? {
      AfterLoginGoesTo(schema, th);
    }
  }

  lemma EachStatementCountsDown(schema: Schema, l: Local, ok: bool, junk: Sight)
    requires !l.th.pc.Done?
    ensures StepsLeft(LocalStep(schema, l, ok, junk).th.pc) < StepsLeft(l.th.pc)
  {
    hide Resume, Execute, NextStatement, StepsLeft;
    EachResultCountsDown(schema, l.th, Execute(schema, l.T, l.last, NextStatement(l.th), ok).result, junk);
  }

  /** A connection left to itself until its request is answered; the i-th statement it sends from
      here fails when `n + i` is in `fails`. */
  function Alone(schema: Schema, l: Local, fails: set<nat>, n: nat, junk: Sight): Local
    decreases StepsLeft(l.th.pc)
  {
    if l.th.pc.Done? then l
    else
      EachStatementCountsDown(schema, l, n !in fails, junk);
      Alone(schema, LocalStep(schema, l, n !in fails, junk), fails, n + 1, junk)
  }

  lemma AloneUnfolds(schema: Schema, l: Local, fails: set<nat>, n: nat, junk: Sight)
    requires !l.th.pc.Done?
    ensures var m := LocalStep(schema, l, n !in fails, junk);
      && Alone(schema, l, fails, n, junk) == Alone(schema, m, fails, n + 1, junk)
      && (m.th.pc.Done? ==> Alone(schema, m, fails, n + 1, junk) == m)
  {
    hide LocalStep;
  }

  lemma {:induction false} AloneFinishes(schema: Schema, l: Local, fails: set<nat>, n: nat, junk: Sight)
    ensures Alone(schema, l, fails, n, junk).th.pc.Done?
    decreases StepsLeft(l.th.pc)
  {
    if !l.th.pc.Done? {
      EachStatementCountsDown(schema, l, n !in fails, junk);
      AloneFinishes(schema, LocalStep(schema, l, n !in fails, junk), fails, n + 1, junk);
    }
  }

  /** The events of a connection left to itself, as `Alone` takes its steps. */
  function SendsOf(schema: Schema, l: Local, t: nat, fails: set<nat>, n: nat, junk: Sight): seq<Event>
    decreases StepsLeft(l.th.pc)
  {
    if l.th.pc.Done? then []
    else
      EachStatementCountsDown(schema, l, n !in fails, junk);
      [Send(t, n !in fails, junk)] + SendsOf(schema, LocalStep(schema, l, n !in fails, junk), t, fails, n + 1, junk)
  }

  lemma RunOfOne(s: Sys, e: Event)
    ensures RunFrom(s, [e]) == Step(s, e)
  {
    assert [e][..0] == [];
  }

  lemma PutTwice(s: Sys, t: nat, l: Local, m: Local)
    ensures s.Put(t, l).Put(t, m) == s.Put(t, m) && s.Put(t, l).View(t) == l && s.Put(t, l).schema == s.schema
  {
  }

  /** `Alone` is a run: a connection's statements, sent one after another with nothing in between, take
      the server to where `Alone` takes the connection. */
  lemma {:induction false} AloneIsRun(s: Sys, t: nat, fails: set<nat>, n: nat, junk: Sight)
    requires t in s.threads && t in s.last
    ensures RunFrom(s, SendsOf(s.schema, s.View(t), t, fails, n, junk)) ==
            s.Put(t, Alone(s.schema, s.View(t), fails, n, junk))
    decreases StepsLeft(s.threads[t].pc)
  {
    var l := s.View(t);
    if l.th.pc.Done? {
      assert s.last[t := s.last[t]] == s.last && s.threads[t := s.threads[t]] == s.threads;
    } else {
      var e, m := Send(t, n !in fails, junk), LocalStep(s.schema, l, n !in fails, junk);
      EachStatementCountsDown(s.schema, l, n !in fails, junk);
      hide LocalStep;
      var s' := s.Put(t, m);
      assert Step(s, e) == s';
      hide Step, StepsLeft;
      var rest := SendsOf(s.schema, m, t, fails, n + 1, junk);
      AloneIsRun(s', t, fails, n + 1, junk);
      PutTwice(s, t, m, Alone(s.schema, m, fails, n + 1, junk));
      RunOfOne(s, e);
      RunAppend(s, [e], rest);
    }
  }

  // ---------- a connection among others ----------

  /** What the other connections have made of the tables by the time a connection sends its n-th
      statement, given what it left after the one before. */
  type World = (nat, Tables) -> Tables

  /** A connection that sends its statements into such a world until its request is answered. */
  function Amid(schema: Schema, l: Local, fails: set<nat>, world: World, n: nat, junk: Sight): Local
    decreases StepsLeft(l.th.pc)
  {
    if l.th.pc.Done? then l
    else
      var met := l.(T := world(n, l.T));
      EachStatementCountsDown(schema, met, n !in fails, junk);
      Amid(schema, LocalStep(schema, met, n !in fails, junk), fails, world, n + 1, junk)
  }

  lemma AmidUnfolds(schema: Schema, l: Local, fails: set<nat>, world: World, n: nat, junk: Sight)
    requires !l.th.pc.Done?
    ensures var m := LocalStep(schema, l.(T := world(n, l.T)), n !in fails, junk);
      && Amid(schema, l, fails, world, n, junk) == Amid(schema, m, fails, world, n + 1, junk)
      && (m.th.pc.Done? ==> Amid(schema, m, fails, world, n + 1, junk) == m)
  {
    hide LocalStep;
  }

  /** The other connections' events before each statement of `t`. */
  type Others = nat -> seq<Event>

  ghost predicate NotOf(others: Others, t: nat) {
    forall k, e :: e in others(k) ==> e.t != t
  }

  lemma {:induction false} OthersLeaveThread(s: Sys, es: seq<Event>, t: nat)
    requires t in s.threads && t in s.last
    requires forall e <- es :: e.t != t
    ensures var s' := RunFrom(s, es);
      t in s'.threads && t in s'.last && s'.threads[t] == s.threads[t] && s'.last[t] == s.last[t]
      && s'.schema == s.schema
  {
    if es != [] {
      assert forall e <- es[..|es| - 1] :: e in es;
      assert es[|es| - 1] in es;
      OthersLeaveThread(s, es[..|es| - 1], t);
      hide LocalStep;
    }
  }

  /** The server after `t`'s next statement and what precedes it. */
  ghost function NextAmong(s: Sys, t: nat, others: Others, fails: set<nat>, n: nat, junk: Sight): Sys {
    Step(RunFrom(s, others(n)), Send(t, n !in fails, junk))
  }

  lemma NextAmongIsStep(s: Sys, t: nat, others: Others, fails: set<nat>, n: nat, junk: Sight)
    requires s.Active(t) && NotOf(others, t)
    ensures var s' := NextAmong(s, t, others, fails, n, junk);
      && t in s'.threads && t in s'.last && s'.schema == s.schema
      && s'.View(t) == LocalStep(s.schema, s.View(t).(T := RunFrom(s, others(n)).T), n !in fails, junk)
      && StepsLeft(s'.threads[t].pc) < StepsLeft(s.threads[t].pc)
  {
    OthersLeaveThread(s, others(n), t);
    var s1 := RunFrom(s, others(n));
    EachStatementCountsDown(s1.schema, s1.View(t), n !in fails, junk);
    hide LocalStep, StepsLeft, RunFrom;
  }

  /** All events of such an interleaving, until `t` is answered. */
  ghost function EventsAmong(s: Sys, t: nat, others: Others, fails: set<nat>, n: nat, junk: Sight): seq<Event>
    requires t in s.threads && t in s.last && NotOf(others, t)
    decreases StepsLeft(s.threads[t].pc)
  {
    if s.threads[t].pc.Done? then []
    else
      NextAmongIsStep(s, t, others, fails, n, junk);
      others(n) + [Send(t, n !in fails, junk)]
      + EventsAmong(NextAmong(s, t, others, fails, n, junk), t, others, fails, n + 1, junk)
  }

  /** The tables as the others leave them before `t`'s k-th statement, in that interleaving. */
  ghost function Before(s: Sys, t: nat, others: Others, fails: set<nat>, n: nat, junk: Sight, k: nat): Tables
    requires t in s.threads && t in s.last && NotOf(others, t)
    decreases StepsLeft(s.threads[t].pc)
  {
    if s.threads[t].pc.Done? || k <= n then RunFrom(s, others(n)).T
    else
      NextAmongIsStep(s, t, others, fails, n, junk);
      Before(NextAmong(s, t, others, fails, n, junk), t, others, fails, n + 1, junk, k)
  }

  /** This world is what `t` meets in that interleaving from its n-th statement on. */
  ghost predicate Meets(world: World, s: Sys, t: nat, others: Others, fails: set<nat>, n: nat, junk: Sight)
    requires t in s.threads && t in s.last && NotOf(others, t)
  {
    forall k: nat, T :: k >= n ==> world(k, T) == Before(s, t, others, fails, n, junk, k)
  }

  /** Every interleaving is a world. */
  lemma InterleavingIsWorld(s: Sys, t: nat, others: Others, fails: set<nat>, n: nat, junk: Sight) returns (world: World)
    requires t in s.threads && t in s.last && NotOf(others, t)
    ensures Meets(world, s, t, others, fails, n, junk)
  {
    world := (k: nat, T: Tables) => Before(s, t, others, fails, n, junk, k);
  }

  lemma MeetsOn(world: World, s: Sys, t: nat, others: Others, fails: set<nat>, n: nat, junk: Sight)
    requires s.Active(t) && NotOf(others, t) && Meets(world, s, t, others, fails, n, junk)
    ensures world(n, s.T) == RunFrom(s, others(n)).T
    ensures var s' := NextAmong(s, t, others, fails, n, junk);
      t in s'.threads && t in s'.last && Meets(world, s', t, others, fails, n + 1, junk)
  {
    NextAmongIsStep(s, t, others, fails, n, junk);
    hide NextAmong;
  }

  /** `Amid` is every interleaving: whatever other connections send before each statement of `t`, the
      run takes `t` to where `Amid` takes it in the world that run is for it. */
  lemma {:induction false} AmidIsRun(s: Sys, t: nat, others: Others, fails: set<nat>, n: nat, junk: Sight, world: World)
    requires t in s.threads && t in s.last && NotOf(others, t) && Meets(world, s, t, others, fails, n, junk)
    ensures var s' := RunFrom(s, EventsAmong(s, t, others, fails, n, junk));
      t in s'.threads && t in s'.last && s'.View(t) == Amid(s.schema, s.View(t), fails, world, n, junk)
    decreases StepsLeft(s.threads[t].pc)
  {
    if !s.threads[t].pc.Done? {
      var l, s1, e := s.View(t), RunFrom(s, others(n)), Send(t, n !in fails, junk);
      var s' := NextAmong(s, t, others, fails, n, junk);
      MeetsOn(world, s, t, others, fails, n, junk);
      NextAmongIsStep(s, t, others, fails, n, junk);
      AmidUnfolds(s.schema, l, fails, world, n, junk);
      RunSnoc(s, others(n), e);
      assert s' == Step(s1, e);
      var rest := EventsAmong(s', t, others, fails, n + 1, junk);
      RunAppend(s, others(n) + [e], rest);
      assert EventsAmong(s, t, others, fails, n, junk) == others(n) + [e] + rest;
      hide Meets, LocalStep, Step, RunFrom, StepsLeft, NextAmong, EventsAmong, Amid;
      AmidIsRun(s', t, others, fails, n + 1, junk, world);
    }
  }
}
