/** What every request does to the tables and what it is answered, when nothing fails and nobody
    interferes, written down from the request's own fields and the tables alone. The step machine of
    module Requests, and with it the methods of ServerDb and Handler, is proved to do just that. */
module Operations {
  import opened Text
  import opened Tables
  import opened FriendQueries
  import opened Requests
  import opened Accounts
  import Integrity
  import QueryText
  import Slots

  datatype Effect = Effect(T: Tables, answer: Answer)

  function Refused(T: Tables, code: int): Effect {
    Effect(T, Code(code))
  }

  // ---------- the reference ----------

  function CreateUserEffect(schema: Schema, T: Tables, req: Request): Effect {
    if req.p1 == "" then Refused(T, 1004)
    else if !QueryText.Accepted(schema.reserved, req.username) || !QueryText.Accepted(schema.reserved, req.password)
            || !QueryText.Accepted(schema.reserved, req.p1) then Refused(T, 1013)
    else if req.username == "" || FindUser(T.users, req.username) != 0 then Refused(T, 1006)
    else if EmailUsed(T.users, req.p1) then Refused(T, 1008)
    else Effect(T.(users := T.users + [User(req.username, req.password, req.p1)]), Code(1005))
  }

  /** The login: the password of the name's last account, the empty one when there is none. */
  predicate Authentic(schema: Schema, T: Tables, req: Request) {
    && QueryText.Accepted(schema.reserved, req.username) && QueryText.Accepted(schema.reserved, req.password)
    && req.password == match PasswordOf(T, req.username) case None => "" case Some(password) => password
  }

  /** One vote more for side `k` of contest `c`, if it exists. */
  function Raised(T: Tables, c: int, k: int): Tables {
    if !T.IsContest(c) then T
    else
      var row := T.ContestRow(c);
      T.(contests := T.contests[c - 1 := if k == 1 then row.(score1 := row.score1 + 1)
                                         else row.(score2 := row.score2 + 1)])
  }

  /** A vote for side `k` of contest `c` by user `u`. The answer has both scores as they are then. */
  function VoteEffect(T: Tables, u: int, c: int, k: int): Effect {
    if !(k == 1 || k == 2) || u == 0 then Refused(T, 1001)
    else if (u, c) in T.voted then Effect(T, Board(ScoresIn(T, c)))
    else
      var after := Raised(T.(voted := T.voted + {(u, c)}), c, k);
      Effect(after, Board(ScoresIn(after, c)))
  }

  function ScoresIn(T: Tables, c: int): Option<(nat, nat)> {
    if T.IsContest(c) then Some((T.ContestRow(c).score1, T.ContestRow(c).score2)) else None
  }

  /** Whether user `u` may put a photo into slot `k`, given what was read of the contest. */
  predicate Allowed(k: int, u: int, sight: Sight) {
    && sight.permissions != -2
    && (|| sight.permissions == 0 || sight.permissions == -1
        || (k == 1 && (sight.user1 == 0 || sight.user1 == u))
        || (k == 2 && (sight.user2 == 0 || sight.user2 == u)))
  }

  /** This photo of user `u` in slot `k` of contest `c`, if that exists. */
  function Shown(T: Tables, c: int, k: int, u: int, image: int, thumb: int): Tables {
    if !T.IsContest(c) then T
    else
      var row := T.ContestRow(c);
      T.(contests := T.contests[c - 1 := if k == 1 then row.(image1 := image, user1 := u, thumb1 := thumb)
                                         else row.(image2 := image, user2 := u, thumb2 := thumb)])
  }

  /** An update of slot `k` of contest `c` by user `u`, whose leftovers are `junk`. The two images are
      stored even when the slot is no slot or the contest does not exist. */
  function UpdateEffect(T: Tables, u: int, c: int, k: int, image: string, thumb: string, junk: Sight): Effect {
    if u == 0 then Refused(T, 1002)
    else if !Allowed(k, u, Slots.SightRead(T, c, junk)) then Refused(T, 1000)
    else
      var stored := T.(images := T.images + [Image(u, image)] + [Image(u, thumb)]);
      var id := |T.images| + 1;
      if !(k == 1 || k == 2) then Refused(stored, 1013) else Refused(Shown(stored, c, k, u, id, id + 1), 1011)
  }

  /** The permission asked for: -1 or 0 as a number, or else the account of a user name. */
  function AskedPermission(T: Tables, p: string): Option<int> {
    match Stoi(p)
    case Some(n) => if n == -1 || n == 0 then Some(n) else None
    case None => if FindUser(T.users, p) == 0 then None else Some(FindUser(T.users, p))
  }

  function CreateContestEffect(schema: Schema, T: Tables, u: int, req: Request): Effect {
    var endtime := if req.p3 == "" then "0000-00-00 00:00:00" else req.p3;
    var permission := AskedPermission(T, req.p2);
    if !QueryText.Accepted(schema.reserved, req.p1) || !QueryText.Accepted(schema.reserved, req.p2)
       || !QueryText.Accepted(schema.reserved, endtime) || permission.None? || u == 0 then Refused(T, 1013)
    else
      var row := Contest(u, 0, req.p1, 0, 0, 0, 0, 0, 0, permission.value, endtime);
      Effect(T.(contests := T.contests + [row]), ContestKey(|T.contests| + 1))
  }

  function AddFriendEffect(schema: Schema, T: Tables, a: int, b: int): Effect {
    if a == 0 || b == 0 then Refused(T, 1013)
    else if schema.uniqueFriends && Edge(a, b) in T.friends then Refused(T, 1003)
    else Refused(T.(friends := T.friends + [Edge(a, b)]), 1000)
  }

  function RemoveFriendEffect(T: Tables, a: int, b: int): Effect {
    if a == 0 || b == 0 then Refused(T, 1013)
    else Refused(T.(friends := Without(Without(T.friends, Edge(a, b)), Edge(b, a))), 1000)
  }

  /** Who has a row in both directions with `a`. */
  function FriendsOf(rows: seq<Edge>, a: int): set<int> {
    set e | e in rows && e.userid == a && Edge(e.friendid, a) in rows :: e.friendid
  }

  /** Who has a row towards `a` that `a` has not answered. */
  function AskersOf(rows: seq<Edge>, a: int): set<int> {
    set e | e in rows && e.friendid == a && Edge(a, e.userid) !in rows :: e.userid
  }

  function ShownText(T: Tables, c: int, k: int): string {
    if !T.IsContest(c) then ""
    else
      var id := if k == 1 then T.ContestRow(c).image1 else T.ContestRow(c).image2;
      if T.IsImage(id) then T.ImageRow(id).text else ""
  }

  function GetImageEffect(T: Tables, c: int, k: int): Effect {
    if c == 0 || !(k == 1 || k == 2) then Refused(T, 1003) else Effect(T, Picture(ShownText(T, c, k)))
  }

  /** Two parameters that must be there and be numbers. */
  function Numbers(first: string, second: string): Option<(int, int)> {
    match (Stoi(first), Stoi(second))
    case (Some(c), Some(k)) => Some((c, k))
    case _ => None
  }

  function EffectOf(schema: Schema, T: Tables, req: Request, junk: Sight): Effect {
    var u, other := FindUser(T.users, req.username), FindUser(T.users, req.p1);
    if req.requestid == "createuser" then CreateUserEffect(schema, T, req)
    else if !Authentic(schema, T, req) then Refused(T, 1010)
    else
      match req.requestid
      case "authenticate" => Refused(T, 1009)
      case "vote" =>
        if req.p1 == "" || req.p2 == "" then Refused(T, 1004)
        else (match Numbers(req.p1, req.p2) case None => Refused(T, 1013) case Some((c, k)) => VoteEffect(T, u, c, k))
      case "getimage" =>
        if req.p1 == "" || req.p2 == "" then Refused(T, 1004)
        else (match Numbers(req.p1, req.p2) case None => Refused(T, 1013) case Some((c, k)) => GetImageEffect(T, c, k))
      case "updateimage" =>
        if req.p2 == "" || req.p4 == "" then Refused(T, 1004)
        else (match Numbers(req.p1, req.p3)
              case None => Refused(T, 1013)
              case Some((c, k)) => UpdateEffect(T, u, c, k, req.p2, req.p4, junk))
      case "createcontest" =>
        if req.p1 == "" || req.p2 == "" then Refused(T, 1004) else CreateContestEffect(schema, T, u, req)
      case "addfriend" =>
        if req.p1 == "" then Refused(T, 1004)
        else if !QueryText.Accepted(schema.reserved, req.p1) then Refused(T, 1013)
        else AddFriendEffect(schema, T, u, other)
      case "removefriend" =>
        if req.p1 == "" then Refused(T, 1004)
        else if !QueryText.Accepted(schema.reserved, req.p1) then Refused(T, 1013)
        else RemoveFriendEffect(T, u, other)
      case "getmyfriends" => if u == 0 then Refused(T, 1013) else Effect(T, Names(FriendsOf(T.friends, u)))
      case "getfriendrequests" => if u == 0 then Refused(T, 1013) else Effect(T, Names(AskersOf(T.friends, u)))
      case "getmycontests" | "getcontest" | "getrandomcontests" | "gettopcontests" => Effect(T, Listing)
      case _ => Refused(T, 1007)
  }

  // ---------- a connection that finishes undisturbed ----------

  lemma {:induction false} CountIsIrrelevant(schema: Schema, l: Local, n: nat, m: nat, junk: Sight)
    ensures Alone(schema, l, {}, n, junk) == Alone(schema, l, {}, m, junk)
    decreases StepsLeft(l.th.pc)
  {
    if !l.th.pc.Done? {
      EachStatementCountsDown(schema, l, true, junk);
      AloneUnfolds(schema, l, {}, n, junk);
      AloneUnfolds(schema, l, {}, m, junk);
      hide LocalStep, StepsLeft, Alone;
      CountIsIrrelevant(schema, LocalStep(schema, l, true, junk), n + 1, m + 1, junk);
    }
  }

  function Finished(schema: Schema, l: Local, junk: Sight): Local {
    Alone(schema, l, {}, 0, junk)
  }

  /** It finishes with this effect. */
  predicate Finishes(schema: Schema, l: Local, junk: Sight, effect: Effect) {
    Finished(schema, l, junk).T == effect.T && Finished(schema, l, junk).th.pc == Done(effect.answer)
  }

  lemma AtEnd(schema: Schema, l: Local, junk: Sight)
    requires l.th.pc.Done?
    ensures Finishes(schema, l, junk, Effect(l.T, l.th.pc.answer))
  {
  }

  lemma OneOn(schema: Schema, l: Local, junk: Sight)
    requires !l.th.pc.Done?
    ensures Finished(schema, l, junk) == Finished(schema, LocalStep(schema, l, true, junk), junk)
  {
    AloneUnfolds(schema, l, {}, 0, junk);
    CountIsIrrelevant(schema, LocalStep(schema, l, true, junk), 1, 0, junk);
    hide LocalStep, Alone;
  }

  /** What a lookup of a name returns. */
  function Found(T: Tables, name: string): Result {
    var id := FindUser(T.users, name);
    if id == 0 then Account(0, "", "") else Account(id, name, T.users[id - 1].password)
  }

  lemma LooksUp(schema: Schema, l: Local, name: string, junk: Sight) returns (m: Local)
    requires !l.th.pc.Done? && NextStatement(l.th) == SelectUser(name)
    ensures m == l.(th := l.th.(pc := Resume(schema, l.th, Found(l.T, name), junk)))
    ensures Finished(schema, l, junk) == Finished(schema, m, junk)
  {
    OneOn(schema, l, junk);
    m := LocalStep(schema, l, true, junk);
    hide Resume, NextStatement, Finished, FindUser;
  }

  /** The same request, elsewhere. */
  predicate Same(th: Thread, th': Thread) {
    th'.req == th.req && th'.kind == th.kind && th'.contest == th.contest && th'.slot == th.slot
  }

  // ---------- vote ----------

  lemma BallotStep(schema: Schema, l: Local, junk: Sight)
    requires l.th.pc.VoteInsert?
    ensures var m, u, c := LocalStep(schema, l, true, junk), l.th.pc.uid, l.th.contest;
      && Same(l.th, m.th)
      && if (u, c) in l.T.voted then m.T == l.T && m.th.pc == VoteRetry(u)
         else m.T == l.T.(voted := l.T.voted + {(u, c)}) && m.th.pc == VoteUpdate(u)
  {
  }

  lemma RaiseStep(schema: Schema, l: Local, junk: Sight)
    requires l.th.pc.VoteUpdate? && (l.th.slot == 1 || l.th.slot == 2)
    ensures var m := LocalStep(schema, l, true, junk);
      Same(l.th, m.th) && m.th.pc == VoteScores(l.th.pc.uid) && m.T == Raised(l.T, l.th.contest, l.th.slot)
  {
  }

  lemma ScoresStep(schema: Schema, l: Local, junk: Sight)
    requires l.th.pc.VoteScores? || l.th.pc.VoteRetry?
    ensures var m := LocalStep(schema, l, true, junk);
      m.T == l.T && m.th.pc == Done(Board(ScoresIn(l.T, l.th.contest)))
  {
  }

  lemma VoteFinishes(schema: Schema, l: Local, junk: Sight)
    requires l.th.pc.VoteUser? && (l.th.slot == 1 || l.th.slot == 2)
    ensures Finishes(schema, l, junk,
                     VoteEffect(l.T, FindUser(l.T.users, l.th.req.username), l.th.contest, l.th.slot))
  {
    var l1 := LooksUp(schema, l, l.th.req.username, junk);
    if l1.th.pc.Done? {
      AtEnd(schema, l1, junk);
    } else {
      BallotFinishes(schema, l1, junk);
    }
    hide Finished, FindUser, LocalStep;
  }

  lemma BallotFinishes(schema: Schema, l: Local, junk: Sight)
    requires l.th.pc.VoteInsert? && l.th.pc.uid != 0 && (l.th.slot == 1 || l.th.slot == 2)
    ensures Finishes(schema, l, junk, VoteEffect(l.T, l.th.pc.uid, l.th.contest, l.th.slot))
  {
    BallotStep(schema, l, junk);
    OneOn(schema, l, junk);
    var l1 := LocalStep(schema, l, true, junk);
    hide LocalStep, Finished, Raised, ScoresIn;
    if l1.th.pc.VoteRetry? {
      ScoresFinish(schema, l1, junk);
    } else {
      RaiseFinishes(schema, l1, junk);
    }
  }

  lemma RaiseFinishes(schema: Schema, l: Local, junk: Sight)
    requires l.th.pc.VoteUpdate? && (l.th.slot == 1 || l.th.slot == 2)
    ensures var after := Raised(l.T, l.th.contest, l.th.slot);
      Finishes(schema, l, junk, Effect(after, Board(ScoresIn(after, l.th.contest))))
  {
    RaiseStep(schema, l, junk);
    OneOn(schema, l, junk);
    hide LocalStep, Finished, Raised, ScoresIn;
    ScoresFinish(schema, LocalStep(schema, l, true, junk), junk);
  }

  lemma ScoresFinish(schema: Schema, l: Local, junk: Sight)
    requires l.th.pc.VoteScores? || l.th.pc.VoteRetry?
    ensures Finishes(schema, l, junk, Effect(l.T, Board(ScoresIn(l.T, l.th.contest))))
  {
    ScoresStep(schema, l, junk);
    OneOn(schema, l, junk);
    AtEnd(schema, LocalStep(schema, l, true, junk), junk);
    hide LocalStep, Finished;
  }

  // ---------- updateimage ----------

  lemma SightStep(schema: Schema, l: Local, junk: Sight)
    requires l.th.pc.ImageSight?
    ensures var m, sight := LocalStep(schema, l, true, junk), Slots.SightRead(l.T, l.th.contest, junk);
      && Same(l.th, m.th) && m.T == l.T
      && m.th.pc == if Allowed(l.th.slot, l.th.pc.uid, sight) then ImageOwner(l.th.pc.uid, sight) else Refuse(1000)
  {
    Slots.SlotCheckMeaning(l.th.slot, l.th.pc.uid, Slots.SightRead(l.T, l.th.contest, junk));
    hide MayUpdate;
  }

  lemma StoreStep(schema: Schema, l: Local, junk: Sight)
    requires l.th.pc.ImageInsert? || l.th.pc.ThumbInsert?
    ensures var m, pc := LocalStep(schema, l, true, junk), l.th.pc;
      var text := if pc.ImageInsert? then l.th.req.p2 else l.th.req.p4;
      && Same(l.th, m.th)
      && m.T == l.T.(images := l.T.images + [Image(pc.owner, text)]) && m.last == |l.T.images| + 1
      && m.th.pc == if pc.ImageInsert? then ImageLastId(pc.uid, pc.sight) else ThumbLastId(pc.uid, pc.sight, pc.image)
  {
  }

  lemma IdStep(schema: Schema, l: Local, junk: Sight)
    requires (l.th.pc.ImageLastId? || l.th.pc.ThumbLastId?) && l.last != 0
    ensures var m, pc := LocalStep(schema, l, true, junk), l.th.pc;
      && Same(l.th, m.th) && m.T == l.T
      && m.th.pc == if pc.ImageLastId? then ThumbOwner(pc.uid, pc.sight, l.last)
                    else if l.th.slot == 1 || l.th.slot == 2 then SlotUpdate(pc.uid, pc.sight, pc.image, l.last)
                    else Refuse(1013)
  {
  }

  lemma ShowStep(schema: Schema, l: Local, junk: Sight)
    requires l.th.pc.SlotUpdate? && (l.th.slot == 1 || l.th.slot == 2)
    ensures var m, pc := LocalStep(schema, l, true, junk), l.th.pc;
      m.T == Shown(l.T, l.th.contest, l.th.slot, pc.uid, pc.image, pc.thumb) && m.th.pc == Refuse(1011)
  {
  }

  /** One image: its owner is looked up again, the row stored, and its key read. */
  lemma ImageStored(schema: Schema, l: Local, junk: Sight) returns (m: Local)
    requires (l.th.pc.ImageOwner? || l.th.pc.ThumbOwner?) && l.th.pc.uid != 0
    requires FindUser(l.T.users, l.th.req.username) == l.th.pc.uid
    ensures Finished(schema, l, junk) == Finished(schema, m, junk) && Same(l.th, m.th)
    ensures var text := if l.th.pc.ImageOwner? then l.th.req.p2 else l.th.req.p4;
      m.T == l.T.(images := l.T.images + [Image(l.th.pc.uid, text)])
    ensures var pc, id := l.th.pc, |l.T.images| + 1;
      m.th.pc == if pc.ImageOwner? then ThumbOwner(pc.uid, pc.sight, id)
                 else if l.th.slot == 1 || l.th.slot == 2 then SlotUpdate(pc.uid, pc.sight, pc.image, id)
                 else Refuse(1013)
  {
    var l1 := LooksUp(schema, l, l.th.req.username, junk);
    StoreStep(schema, l1, junk);
    OneOn(schema, l1, junk);
    var l2 := LocalStep(schema, l1, true, junk);
    hide LocalStep, Finished, FindUser;
    IdStep(schema, l2, junk);
    OneOn(schema, l2, junk);
    m := LocalStep(schema, l2, true, junk);
  }

  lemma UpdateFinishes(schema: Schema, l: Local, junk: Sight)
    requires l.th.pc.ImageUser?
    ensures Finishes(schema, l, junk,
                     UpdateEffect(l.T, FindUser(l.T.users, l.th.req.username), l.th.contest, l.th.slot,
                                  l.th.req.p2, l.th.req.p4, junk))
  {
    var l1 := LooksUp(schema, l, l.th.req.username, junk);
    if l1.th.pc.Done? {
      AtEnd(schema, l1, junk);
    } else {
      SightFinishes(schema, l1, junk);
    }
    hide Finished, FindUser, LocalStep, Allowed, Slots.SightRead;
  }

  lemma SightFinishes(schema: Schema, l: Local, junk: Sight)
    requires l.th.pc.ImageSight? && l.th.pc.uid != 0 && FindUser(l.T.users, l.th.req.username) == l.th.pc.uid
    ensures Finishes(schema, l, junk,
                     UpdateEffect(l.T, l.th.pc.uid, l.th.contest, l.th.slot, l.th.req.p2, l.th.req.p4, junk))
  {
    SightStep(schema, l, junk);
    OneOn(schema, l, junk);
    var l1 := LocalStep(schema, l, true, junk);
    hide LocalStep, Finished, FindUser, Allowed, Slots.SightRead;
    if l1.th.pc.Done? {
      AtEnd(schema, l1, junk);
    } else {
      PhotosFinish(schema, l1, junk);
    }
  }

  lemma PhotosFinish(schema: Schema, l: Local, junk: Sight)
    requires l.th.pc.ImageOwner? && l.th.pc.uid != 0 && FindUser(l.T.users, l.th.req.username) == l.th.pc.uid
    ensures var u, id := l.th.pc.uid, |l.T.images| + 1;
      var stored := l.T.(images := l.T.images + [Image(u, l.th.req.p2)] + [Image(u, l.th.req.p4)]);
      Finishes(schema, l, junk,
               if !(l.th.slot == 1 || l.th.slot == 2) then Refused(stored, 1013)
               else Refused(Shown(stored, l.th.contest, l.th.slot, u, id, id + 1), 1011))
  {
    var l1 := ImageStored(schema, l, junk);
    var l2 := ImageStored(schema, l1, junk);
    hide Finished, FindUser, LocalStep, Shown;
    if l2.th.pc.Done? {
      AtEnd(schema, l2, junk);
    } else {
      ShowStep(schema, l2, junk);
      OneOn(schema, l2, junk);
      AtEnd(schema, LocalStep(schema, l2, true, junk), junk);
    }
  }

  // ---------- createcontest ----------

  lemma RowStep(schema: Schema, l: Local, junk: Sight)
    requires l.th.pc.ContestInsert?
    ensures var m, pc := LocalStep(schema, l, true, junk), l.th.pc;
      && Same(l.th, m.th) && m.th.pc == ContestLastId(pc.uid, pc.permission) && m.last == |l.T.contests| + 1
      && var row := Contest(pc.uid, 0, l.th.req.p1, 0, 0, 0, 0, 0, 0, pc.permission, Endtime(l.th.req));
         m.T == l.T.(contests := l.T.contests + [row])
  {
  }

  lemma KeyStep(schema: Schema, l: Local, junk: Sight)
    requires l.th.pc.ContestLastId?
    ensures LocalStep(schema, l, true, junk).T == l.T
    ensures LocalStep(schema, l, true, junk).th.pc == Done(ContestKey(l.last))
  {
  }

  lemma RowFinishes(schema: Schema, l: Local, junk: Sight)
    requires l.th.pc.ContestInsert?
    ensures var row := Contest(l.th.pc.uid, 0, l.th.req.p1, 0, 0, 0, 0, 0, 0, l.th.pc.permission, Endtime(l.th.req));
      Finishes(schema, l, junk, Effect(l.T.(contests := l.T.contests + [row]), ContestKey(|l.T.contests| + 1)))
  {
    RowStep(schema, l, junk);
    OneOn(schema, l, junk);
    var l1 := LocalStep(schema, l, true, junk);
    hide LocalStep, Finished, Endtime;
    KeyStep(schema, l1, junk);
    OneOn(schema, l1, junk);
    AtEnd(schema, LocalStep(schema, l1, true, junk), junk);
  }

  lemma CreatorFinishes(schema: Schema, l: Local, junk: Sight)
    requires l.th.pc.CreatorUser?
    ensures var u := FindUser(l.T.users, l.th.req.username);
      var row := Contest(u, 0, l.th.req.p1, 0, 0, 0, 0, 0, 0, l.th.pc.permission, Endtime(l.th.req));
      Finishes(schema, l, junk,
               if u == 0 then Refused(l.T, 1013)
               else Effect(l.T.(contests := l.T.contests + [row]), ContestKey(|l.T.contests| + 1)))
  {
    var l1 := LooksUp(schema, l, l.th.req.username, junk);
    if l1.th.pc.Done? {
      AtEnd(schema, l1, junk);
    } else {
      RowFinishes(schema, l1, junk);
    }
    hide Finished, FindUser, LocalStep, Endtime;
  }

  lemma ContestFinishes(schema: Schema, l: Local, junk: Sight)
    requires l.th.pc == ContestStart(schema, l.th.req)
    ensures Finishes(schema, l, junk,
                     CreateContestEffect(schema, l.T, FindUser(l.T.users, l.th.req.username), l.th.req))
  {
    hide QueryText.Accepted, Stoi, FindUser, Finished;
    if l.th.pc.Done? {
      AtEnd(schema, l, junk);
    } else if l.th.pc.CreatorUser? {
      CreatorFinishes(schema, l, junk);
    } else {
      var l1 := LooksUp(schema, l, l.th.req.p2, junk);
      if l1.th.pc.Done? {
        AtEnd(schema, l1, junk);
      } else {
        CreatorFinishes(schema, l1, junk);
      }
    }
  }

  // ---------- the friends table ----------

  lemma BothLookedUp(schema: Schema, l: Local, junk: Sight) returns (m: Local)
    requires l.th.pc.FriendUser?
    ensures Finished(schema, l, junk) == Finished(schema, m, junk)
    ensures var a, b := FindUser(l.T.users, l.th.req.username), FindUser(l.T.users, l.th.req.p1);
      m == l.(th := l.th.(pc := if a == 0 || b == 0 then Refuse(1013)
                                else if l.th.kind.AddFriend? then FriendInsert(a, b) else UnfriendOne(a, b)))
  {
    var l1 := LooksUp(schema, l, l.th.req.username, junk);
    m := LooksUp(schema, l1, l.th.req.p1, junk);
    hide Finished, FindUser;
  }

  lemma AddStep(schema: Schema, l: Local, junk: Sight)
    requires l.th.pc.FriendInsert?
    ensures var m, e := LocalStep(schema, l, true, junk), Edge(l.th.pc.uid, l.th.pc.other);
      if schema.uniqueFriends && e in l.T.friends then m.T == l.T && m.th.pc == Refuse(1003)
      else m.T == l.T.(friends := l.T.friends + [e]) && m.th.pc == Refuse(1000)
  {
  }

  lemma DeleteSteps(schema: Schema, l: Local, junk: Sight)
    requires l.th.pc.UnfriendOne? || l.th.pc.UnfriendTwo?
    ensures var m, a, b := LocalStep(schema, l, true, junk), l.th.pc.uid, l.th.pc.other;
      if l.th.pc.UnfriendOne? then
        m.T == l.T.(friends := Without(l.T.friends, Edge(a, b))) && m.th.pc == UnfriendTwo(a, b)
      else m.T == l.T.(friends := Without(l.T.friends, Edge(b, a))) && m.th.pc == Refuse(1000)
  {
    hide Without;
  }

  lemma AddFinishes(schema: Schema, l: Local, junk: Sight)
    requires l.th.pc.FriendUser? && l.th.kind.AddFriend?
    ensures Finishes(schema, l, junk, AddFriendEffect(schema, l.T, FindUser(l.T.users, l.th.req.username),
                                                      FindUser(l.T.users, l.th.req.p1)))
  {
    var l1 := BothLookedUp(schema, l, junk);
    hide Finished, FindUser, LocalStep;
    if l1.th.pc.Done? {
      AtEnd(schema, l1, junk);
    } else {
      AddStep(schema, l1, junk);
      OneOn(schema, l1, junk);
      AtEnd(schema, LocalStep(schema, l1, true, junk), junk);
    }
  }

  lemma RemoveFinishes(schema: Schema, l: Local, junk: Sight)
    requires l.th.pc.FriendUser? && l.th.kind.RemoveFriend?
    ensures Finishes(schema, l, junk, RemoveFriendEffect(l.T, FindUser(l.T.users, l.th.req.username),
                                                         FindUser(l.T.users, l.th.req.p1)))
  {
    var l1 := BothLookedUp(schema, l, junk);
    hide Finished, FindUser, LocalStep, Without;
    if l1.th.pc.Done? {
      AtEnd(schema, l1, junk);
    } else {
      DeleteSteps(schema, l1, junk);
      OneOn(schema, l1, junk);
      var l2 := LocalStep(schema, l1, true, junk);
      DeleteSteps(schema, l2, junk);
      OneOn(schema, l2, junk);
      AtEnd(schema, LocalStep(schema, l2, true, junk), junk);
    }
  }

  lemma ListsMean(rows: seq<Edge>, a: int)
    ensures MutualFriends(rows, a) == FriendsOf(rows, a) && Requesters(rows, a) == AskersOf(rows, a)
  {
    forall b
      ensures b in MutualFriends(rows, a) <==> b in FriendsOf(rows, a)
      ensures b in Requesters(rows, a) <==> b in AskersOf(rows, a)
    {
      MutualFriendsMeaning(rows, a, b);
      RequestersMeaning(rows, a, b);
      assert Edge(a, b) in rows && Edge(b, a) in rows ==> Edge(a, b).friendid in FriendsOf(rows, a);
      assert Edge(b, a) in rows && Edge(a, b) !in rows ==> Edge(b, a).userid in AskersOf(rows, a);
    }
  }

  lemma RowsStep(schema: Schema, l: Local, junk: Sight)
    requires l.th.pc.ListRows?
    ensures var m, a := LocalStep(schema, l, true, junk), l.th.pc.uid;
      && m.T == l.T
      && m.th.pc == Done(Names(if l.th.kind.MyFriends? then FriendsOf(l.T.friends, a) else AskersOf(l.T.friends, a)))
  {
    ListsMean(l.T.friends, l.th.pc.uid);
    hide MutualFriends, Requesters, FriendsOf, AskersOf;
  }

  lemma ListFinishes(schema: Schema, l: Local, junk: Sight)
    requires l.th.pc.ListUser?
    ensures var a := FindUser(l.T.users, l.th.req.username);
      Finishes(schema, l, junk,
               if a == 0 then Refused(l.T, 1013)
               else Effect(l.T, Names(if l.th.kind.MyFriends? then FriendsOf(l.T.friends, a)
                                      else AskersOf(l.T.friends, a))))
  {
    var l1 := LooksUp(schema, l, l.th.req.username, junk);
    hide Finished, FindUser, LocalStep, FriendsOf, AskersOf;
    if l1.th.pc.Done? {
      AtEnd(schema, l1, junk);
    } else {
      RowsStep(schema, l1, junk);
      OneOn(schema, l1, junk);
      AtEnd(schema, LocalStep(schema, l1, true, junk), junk);
    }
  }

  // ---------- getimage ----------

  lemma PhotoIdStep(schema: Schema, l: Local, junk: Sight)
    requires l.th.pc.PictureId?
    ensures var m := LocalStep(schema, l, true, junk);
      && m.T == l.T
      && m.th.pc == PictureText(if !l.T.IsContest(l.th.contest) then -1
                                else if l.th.slot == 1 then l.T.ContestRow(l.th.contest).image1
                                else l.T.ContestRow(l.th.contest).image2)
  {
  }

  lemma PhotoTextStep(schema: Schema, l: Local, junk: Sight)
    requires l.th.pc.PictureText?
    ensures var m, id := LocalStep(schema, l, true, junk), l.th.pc.image;
      m.T == l.T && m.th.pc == Done(Picture(if l.T.IsImage(id) then l.T.ImageRow(id).text else ""))
  {
  }

  lemma PhotoFinishes(schema: Schema, l: Local, junk: Sight)
    requires l.th.pc.PictureId?
    ensures Finishes(schema, l, junk, Effect(l.T, Picture(ShownText(l.T, l.th.contest, l.th.slot))))
  {
    PhotoIdStep(schema, l, junk);
    OneOn(schema, l, junk);
    var l1 := LocalStep(schema, l, true, junk);
    hide LocalStep, Finished;
    PhotoTextStep(schema, l1, junk);
    OneOn(schema, l1, junk);
    AtEnd(schema, LocalStep(schema, l1, true, junk), junk);
  }

  // ---------- createuser and the gate ----------

  lemma NameStep(schema: Schema, l: Local, junk: Sight)
    requires l.th.pc.UserCheck?
    ensures LocalStep(schema, l, true, junk) == l.(th := l.th.(pc :=
      if l.th.req.username == "" || FindUser(l.T.users, l.th.req.username) != 0 then Refuse(1006) else UserInsert))
  {
  }

  lemma AccountStep(schema: Schema, l: Local, junk: Sight)
    requires l.th.pc.UserInsert? && FindUser(l.T.users, l.th.req.username) == 0
    ensures var m, req := LocalStep(schema, l, true, junk), l.th.req;
      if EmailUsed(l.T.users, req.p1) then m.T == l.T && m.th.pc == Refuse(1008)
      else m.T == l.T.(users := l.T.users + [User(req.username, req.password, req.p1)]) && m.th.pc == Refuse(1005)
  {
  }

  lemma AccountFinishes(schema: Schema, l: Local, junk: Sight)
    requires l.th.pc.UserCheck? && l.th.req.p1 != ""
    requires QueryText.Accepted(schema.reserved, l.th.req.username)
    requires QueryText.Accepted(schema.reserved, l.th.req.password) && QueryText.Accepted(schema.reserved, l.th.req.p1)
    ensures Finishes(schema, l, junk, CreateUserEffect(schema, l.T, l.th.req))
  {
    NameStep(schema, l, junk);
    OneOn(schema, l, junk);
    var l1 := LocalStep(schema, l, true, junk);
    hide LocalStep, Finished, QueryText.Accepted, EmailUsed, FindUser;
    if l1.th.pc.Done? {
      AtEnd(schema, l1, junk);
    } else {
      AccountStep(schema, l1, junk);
      OneOn(schema, l1, junk);
      AtEnd(schema, LocalStep(schema, l1, true, junk), junk);
    }
  }

  lemma GateStep(schema: Schema, l: Local, junk: Sight)
    requires l.th.pc.Login?
    ensures LocalStep(schema, l, true, junk) == l.(th := l.th.(pc :=
      if l.th.req.password == (match PasswordOf(l.T, l.th.req.username) case None => "" case Some(p) => p)
      then AfterLogin(schema, l.th) else Refuse(1010)))
  {
    hide AfterLogin, FindUser;
  }

  /** A request just past its login. */
  predicate PastGate(schema: Schema, l: Local) {
    && l.th.pc == AfterLogin(schema, l.th) && l.th.kind == KindOf(l.th.req.requestid) && !l.th.kind.CreateUser?
    && l.th.contest == Number(l.th.req.p1)
    && l.th.slot == Number(if l.th.kind.UpdateImage? then l.th.req.p3 else l.th.req.p2)
    && Authentic(schema, l.T, l.th.req)
  }

  lemma VoteCommand(schema: Schema, l: Local, junk: Sight)
    requires PastGate(schema, l) && l.th.req.requestid == "vote"
    ensures Finishes(schema, l, junk, EffectOf(schema, l.T, l.th.req, junk))
  {
    hide QueryText.Accepted, Stoi, FindUser, Finished, PasswordOf, Raised, ScoresIn;
    assert l.th.kind.Vote?;
    if l.th.pc.Done? {
      AtEnd(schema, l, junk);
    } else {
      VoteFinishes(schema, l, junk);
    }
  }

  lemma UpdateCommand(schema: Schema, l: Local, junk: Sight)
    requires PastGate(schema, l) && l.th.req.requestid == "updateimage"
    ensures Finishes(schema, l, junk, EffectOf(schema, l.T, l.th.req, junk))
  {
    hide QueryText.Accepted, Stoi, FindUser, Finished, PasswordOf, UpdateEffect;
    assert l.th.kind.UpdateImage?;
    if l.th.pc.Done? {
      AtEnd(schema, l, junk);
    } else {
      UpdateFinishes(schema, l, junk);
    }
  }

  lemma ContestCommand(schema: Schema, l: Local, junk: Sight)
    requires PastGate(schema, l) && l.th.req.requestid == "createcontest"
    ensures Finishes(schema, l, junk, EffectOf(schema, l.T, l.th.req, junk))
  {
    hide QueryText.Accepted, Stoi, FindUser, Finished, PasswordOf, CreateContestEffect, ContestStart;
    assert l.th.kind.CreateContest?;
    if l.th.req.p1 == "" || l.th.req.p2 == "" {
      AtEnd(schema, l, junk);
    } else {
      ContestFinishes(schema, l, junk);
    }
  }

  lemma FriendCommand(schema: Schema, l: Local, junk: Sight)
    requires PastGate(schema, l) && (l.th.req.requestid == "addfriend" || l.th.req.requestid == "removefriend")
    ensures Finishes(schema, l, junk, EffectOf(schema, l.T, l.th.req, junk))
  {
    hide QueryText.Accepted, Stoi, FindUser, Finished, PasswordOf, AddFriendEffect, RemoveFriendEffect;
    if l.th.pc.Done? {
      AtEnd(schema, l, junk);
    } else if l.th.kind.AddFriend? {
      AddFinishes(schema, l, junk);
    } else {
      RemoveFinishes(schema, l, junk);
    }
  }

  lemma ListCommand(schema: Schema, l: Local, junk: Sight)
    requires PastGate(schema, l) && (l.th.req.requestid == "getmyfriends" || l.th.req.requestid == "getfriendrequests")
    ensures Finishes(schema, l, junk, EffectOf(schema, l.T, l.th.req, junk))
  {
    hide QueryText.Accepted, Stoi, FindUser, Finished, PasswordOf, FriendsOf, AskersOf;
    ListFinishes(schema, l, junk);
  }

  lemma PhotoCommand(schema: Schema, l: Local, junk: Sight)
    requires PastGate(schema, l) && l.th.req.requestid == "getimage"
    ensures Finishes(schema, l, junk, EffectOf(schema, l.T, l.th.req, junk))
  {
    hide QueryText.Accepted, Stoi, FindUser, Finished, PasswordOf, ShownText;
    assert l.th.kind.GetImage?;
    if l.th.pc.Done? {
      AtEnd(schema, l, junk);
    } else {
      PhotoFinishes(schema, l, junk);
    }
  }

  lemma OtherCommand(schema: Schema, l: Local, junk: Sight)
    requires PastGate(schema, l)
    requires l.th.kind.Authenticate? || l.th.kind.Browse? || l.th.kind.Unknown?
    ensures Finishes(schema, l, junk, EffectOf(schema, l.T, l.th.req, junk))
  {
    hide QueryText.Accepted, Stoi, FindUser, Finished, PasswordOf;
    AtEnd(schema, l, junk);
  }

  /** Where an authenticated request finishes. */
  lemma CommandFinishes(schema: Schema, l: Local, junk: Sight)
    requires PastGate(schema, l)
    ensures Finishes(schema, l, junk, EffectOf(schema, l.T, l.th.req, junk))
  {
    hide AfterLogin, Number, Authentic, Finishes, EffectOf;
    match l.th.kind
    case Vote => VoteCommand(schema, l, junk);
    case UpdateImage => UpdateCommand(schema, l, junk);
    case CreateContest => ContestCommand(schema, l, junk);
    case AddFriend | RemoveFriend => FriendCommand(schema, l, junk);
    case MyFriends | FriendRequests => ListCommand(schema, l, junk);
    case GetImage => PhotoCommand(schema, l, junk);
    case _ => OtherCommand(schema, l, junk);
  }

  lemma CreationServedAsSaid(schema: Schema, l: Local, req: Request, junk: Sight)
    requires req.requestid == "createuser" && l.th == Begin(schema, req)
    ensures Finishes(schema, l, junk, CreateUserEffect(schema, l.T, req))
  {
    assert l.th.kind.CreateUser?;
    hide QueryText.Accepted, Finished, FindUser, EmailUsed;
    if l.th.pc.Done? {
      AtEnd(schema, l, junk);
    } else {
      AccountFinishes(schema, l, junk);
    }
  }

  lemma BeginsAtGate(schema: Schema, req: Request)
    requires req.requestid != "createuser"
    ensures var th := Begin(schema, req);
      && th.req == req && th.kind == KindOf(req.requestid) && !th.kind.CreateUser?
      && th.contest == Number(req.p1) && th.slot == Number(if th.kind.UpdateImage? then req.p3 else req.p2)
      && th.pc == if QueryText.Accepted(schema.reserved, req.username)
                     && QueryText.Accepted(schema.reserved, req.password)
                  then Login else Refuse(1010)
  {
    hide QueryText.Accepted, Number;
  }

  lemma AfterLoginIgnoresPc(schema: Schema, th: Thread, pc: Pc)
    ensures AfterLogin(schema, th.(pc := pc)) == AfterLogin(schema, th)
  {
    hide ContestStart, QueryText.Accepted, ParameterFault;
  }

  /** Served alone and without failures, every request does to the tables what `EffectOf` says, and is
      answered so. */
  lemma ServedAsSaid(schema: Schema, l: Local, req: Request, junk: Sight)
    requires l.th == Begin(schema, req)
    ensures Finishes(schema, l, junk, EffectOf(schema, l.T, req, junk))
  {
    if req.requestid == "createuser" {
      CreationServedAsSaid(schema, l, req, junk);
      hide Finishes, CreateUserEffect;
    } else {
      BeginsAtGate(schema, req);
      hide Begin, KindOf, Number, QueryText.Accepted, PasswordOf, Finished;
      if l.th.pc.Done? {
        AtEnd(schema, l, junk);
      } else {
        GateFinishes(schema, l, junk);
      }
    }
  }

  lemma GateFinishes(schema: Schema, l: Local, junk: Sight)
    requires l.th.pc.Login? && l.th.kind == KindOf(l.th.req.requestid) && l.th.req.requestid != "createuser"
    requires !l.th.kind.CreateUser? && l.th.contest == Number(l.th.req.p1)
    requires l.th.slot == Number(if l.th.kind.UpdateImage? then l.th.req.p3 else l.th.req.p2)
    requires QueryText.Accepted(schema.reserved, l.th.req.username)
    requires QueryText.Accepted(schema.reserved, l.th.req.password)
    ensures Finishes(schema, l, junk, EffectOf(schema, l.T, l.th.req, junk))
  {
    hide KindOf, Number, QueryText.Accepted, PasswordOf, Finished, LocalStep, AfterLogin;
    GateStep(schema, l, junk);
    OneOn(schema, l, junk);
    var l1 := LocalStep(schema, l, true, junk);
    if Authentic(schema, l.T, l.th.req) {
      AfterLoginIgnoresPc(schema, l.th, l1.th.pc);
      hide EffectOf;
      CommandFinishes(schema, l1, junk);
    } else {
      AtEnd(schema, l1, junk);
    }
  }

  lemma ServedAlone(schema: Schema, T: Tables, req: Request, junk: Sight)
    ensures Finishes(schema, Local(T, 0, Begin(schema, req)), junk, EffectOf(schema, T, req, junk))
  {
    hide Finishes, EffectOf, Begin;
    ServedAsSaid(schema, Local(T, 0, Begin(schema, req)), req, junk);
  }

  // ---------- statements that fail ----------

  /** Where a failed statement leaves a request: with which code, or, in vote's catch block and behind
      the first lookup of the friend operations, at which step. */
  function AfterFailure(pc: Pc): Pc {
    match pc
    case Login => Refuse(1010)
    case UserCheck | UserInsert | ContestInsert(_, _) | ContestLastId(_, _) => Refuse(1003)
    case PermitUser | CreatorUser(_) => Refuse(1013)
    case ImageUser => Refuse(1002)
    case ImageSight(_) | SlotUpdate(_, _, _, _) => Refuse(1012)
    case ImageOwner(_, _) | ImageInsert(_, _, _) | ImageLastId(_, _) => Refuse(999)
    case ThumbOwner(_, _, _) | ThumbInsert(_, _, _, _) | ThumbLastId(_, _, _) => Refuse(999)
    case FriendUser => FriendOther(0)
    case FriendOther(_) | ListUser => Refuse(1013)
    case FriendInsert(_, _) | UnfriendOne(_, _) | UnfriendTwo(_, _) | ListRows(_) => Refuse(1003)
    case VoteUser | VoteRetry(_) => Refuse(1001)
    case VoteInsert(uid) => VoteRetry(uid)
    case VoteUpdate(uid) => VoteRetry(uid)
    case VoteScores(uid) => VoteRetry(uid)
    case PictureId | PictureText(_) => Refuse(1003)
    case Done(_) => pc
  }

  /** A failed statement changes no table, and every request is answered for it as the source has it. */
  lemma FailureIsAnswered(schema: Schema, l: Local, junk: Sight)
    ensures var m := LocalStep(schema, l, false, junk);
      m.T == l.T && m.last == l.last && m.th.pc == AfterFailure(l.th.pc) && m.th.made == l.th.made
  {
    hide AfterLogin, MayUpdate, NextStatement;
  }
}
