/** The SRV_DB class (source/srv_db.cpp), statement by statement. Each method is what its request's
    step machine does, in any interleaving with other connections: before each statement the session
    meets the tables as those have left them. */
module ServerDb {
  import opened Text
  import opened Tables
  import opened FriendQueries
  import opened Requests
  import QueryText

  const KEY_OPENS := "{\"CONTESTKEY\": \""
  const IMAGE_OPENS := "{\"image\": \""
  const CLOSES := "\"}"

  /** The text createContest answers with (source/srv_db.cpp:408-411). */
  function KeyContent(id: int): string {
    KEY_OPENS + IntToString(id) + CLOSES
  }

  /** The text publicGetImage answers with (source/srv_db.cpp:776). */
  function ImageContent(image: string): string {
    IMAGE_OPENS + image + CLOSES
  }

  /** One row of `SELECT user_id, user_name, password FROM users WHERE user_name = ...`. */
  datatype UserRow = UserRow(id: int, name: string, password: string)

  function MatchingRows(users: seq<User>, name: string): seq<UserRow> {
    if users == [] then []
    else
      var n := |users| - 1;
      var rest := MatchingRows(users[..n], name);
      if users[n].name == name then rest + [UserRow(|users|, name, users[n].password)] else rest
  }

  /** A loop that keeps overwriting its variable ends with the row FindUser names. */
  lemma LastMatchIsFound(users: seq<User>, name: string)
    ensures var rows, id := MatchingRows(users, name), FindUser(users, name);
      if rows == [] then id == 0
      else id != 0 && rows[|rows| - 1] == UserRow(id, name, users[id - 1].password)
  {
  }

  /** One session of the MySQL server: the tables as this session last saw them, its LAST_INSERT_ID(),
      which of the statements sent over it fail for reasons of their own, and what other sessions make
      of the tables before each of them. */
  class Session {
    const schema: Schema
    const fails: set<nat>
    const world: World
    var users: seq<User>
    var contests: seq<Contest>
    var images: seq<Image>
    var friends: seq<Edge>
    var voted: set<(int, int)>
    var lastId: int
    var sent: nat

    constructor (schema: Schema, fails: set<nat>, world: World, T: Tables)
      ensures this.schema == schema && this.fails == fails && this.world == world
      ensures All() == T && lastId == 0 && sent == 0
    {
      this.schema, this.fails, this.world := schema, fails, world;
      users, contests, images, friends, voted := T.users, T.contests, T.images, T.friends, T.voted;
      lastId, sent := 0, 0;
    }

    function All(): Tables
      reads this
    {
      Tables(users, contests, images, friends, voted)
    }

    /** Other sessions' statements take effect. */
    method Meet()
      modifies this`users, this`contests, this`images, this`friends, this`voted
      ensures All() == world(sent, old(All()))
    {
      var T := world(sent, All());
      users, contests, images, friends, voted := T.users, T.contests, T.images, T.friends, T.voted;
    }

    method Perform(st: Statement) returns (r: Result)
      modifies this
      ensures sent == old(sent) + 1
      ensures var met := world(old(sent), old(All()));
        var out := Execute(schema, met, old(lastId), st, old(sent) !in fails);
        All() == out.tables && r == out.result && lastId == if out.setsKey then out.key else old(lastId)
    {
      Meet();
      var out := Execute(schema, All(), lastId, st, sent !in fails);
      users, contests, images := out.tables.users, out.tables.contests, out.tables.images;
      friends, voted := out.tables.friends, out.tables.voted;
      lastId := if out.setsKey then out.key else lastId;
      sent := sent + 1;
      r := out.result;
    }

    /** A SELECT over user names, with its whole result set. */
    method QueryUsers(name: string) returns (ok: bool, rows: seq<UserRow>)
      modifies this
      ensures sent == old(sent) + 1 && lastId == old(lastId) && All() == world(old(sent), old(All()))
      ensures ok == (old(sent) !in fails)
      ensures rows == if ok then MatchingRows(users, name) else []
    {
      Meet();
      ok := sent !in fails;
      rows := if ok then MatchingRows(users, name) else [];
      sent := sent + 1;
    }
  }

  class SrvDb {
    const db: Session
    const reachable: bool
    var connectionStatus: bool

    constructor (db: Session, reachable: bool)
      ensures this.db == db && this.reachable == reachable && connectionStatus == reachable
    {
      this.db, this.reachable := db, reachable;
      connectionStatus := reachable;
    }

    method OpenConnection() returns (ok: bool)
      modifies this`connectionStatus
      ensures ok == reachable == connectionStatus
    {
      connectionStatus := reachable;
      return reachable;
    }

    /** How every method begins: a closed connection is opened again. */
    method Connect() returns (ok: bool)
      modifies this`connectionStatus
      ensures ok == connectionStatus == (old(connectionStatus) || reachable)
    {
      if !connectionStatus {
        ok := OpenConnection();
        return;
      }
      return true;
    }

    /** The request `l` is at the step this session is at. */
    ghost predicate At(l: Local)
      reads db
    {
      l.T == db.All() && l.last == db.lastId
    }

    /** The tables a request at `l` meets when `sent` statements have been sent. */
    ghost function MetBy(l: Local, sent: nat): Tables
      reads db
    {
      db.world(sent, l.T)
    }

    /** The login of a request at `l` succeeds: its SELECT does, and the last row with the name has the
        password, or there is none and the password is empty. */
    ghost predicate Fits(l: Local, sent: nat)
      reads db
    {
      var T := MetBy(l, sent);
      var id := FindUser(T.users, l.th.req.username);
      sent !in db.fails && (if id == 0 then "" else T.users[id - 1].password) == l.th.req.password
    }

    /** The session is where a request that was at `l` ends, and `answer` is its answer. */
    ghost predicate Ends(l: Local, sent: nat, junk: Sight, answer: Answer)
      reads db
    {
      var m := Amid(db.schema, l, db.fails, db.world, sent, junk);
      At(m) && m.th.pc == Done(answer)
    }

    /** A request at `l` when `sent` statements had been sent gets to `m`, where the session is now. */
    ghost predicate Leads(l: Local, sent: nat, m: Local, junk: Sight)
      reads db
    {
      && At(m)
      && Amid(db.schema, l, db.fails, db.world, sent, junk) == Amid(db.schema, m, db.fails, db.world, db.sent, junk)
      && (m.th.pc.Done? ==> Amid(db.schema, m, db.fails, db.world, db.sent, junk) == m)
    }

    /** What `Ends` says of the server: when the session's world is what connection `t` meets in an
        interleaving with other connections' events, that run ends with these tables and this answer. */
    lemma EndsInRun(s: Sys, t: nat, others: Others, sent: nat, junk: Sight, answer: Answer)
      requires t in s.threads && t in s.last && NotOf(others, t) && s.schema == db.schema
      requires Meets(db.world, s, t, others, db.fails, sent, junk)
      requires Ends(s.View(t), sent, junk, answer)
      ensures var s' := RunFrom(s, EventsAmong(s, t, others, db.fails, sent, junk));
        t in s'.threads && s'.threads[t].pc == Done(answer) && s'.T == db.All()
    {
      AmidIsRun(s, t, others, db.fails, sent, junk, db.world);
      hide Amid, RunFrom, EventsAmong, Meets;
    }

    lemma RefusedEnds(l: Local, sent: nat, junk: Sight)
      requires At(l) && l.th.pc.Done?
      ensures Ends(l, sent, junk, l.th.pc.answer)
    {
    }

    /** One statement of a request, through the session. */
    method Send(st: Statement, ghost l: Local, ghost junk: Sight) returns (r: Result, ghost m: Local)
      requires At(l) && !l.th.pc.Done? && st == NextStatement(l.th)
      modifies db
      ensures Leads(l, old(db.sent), m, junk)
      ensures m.th.kind == l.th.kind && m.th.req == l.th.req && m.th.contest == l.th.contest && m.th.slot == l.th.slot
      ensures m.th.pc == Resume(db.schema, l.th, r, junk)
      ensures db.sent == old(db.sent) + 1
    {
      hide Resume, NextStatement, Amid, Execute;
      m := LocalStep(db.schema, l.(T := MetBy(l, db.sent)), db.sent !in db.fails, junk);
      AmidUnfolds(db.schema, l, db.fails, db.world, db.sent, junk);
      r := db.Perform(st);
    }

    /** What the last of the rows of a user query says, if the query was answered. */
    predicate RowsGive(ok: bool, rows: seq<UserRow>, r: Result) {
      if !ok then r == Failure
      else if rows == [] then r == Account(0, "", "")
      else var row := rows[|rows| - 1]; row.id != 0 && r == Account(row.id, row.name, row.password)
    }

    /** The SELECT over a user name that a request makes at `l`, with all its rows. */
    method QueryUser(username: string, ghost l: Local, ghost junk: Sight)
      returns (ok: bool, rows: seq<UserRow>, ghost r: Result, ghost m: Local)
      requires At(l) && !l.th.pc.Done? && NextStatement(l.th) == SelectUser(username)
      modifies db
      ensures db.sent == old(db.sent) + 1
      ensures Leads(l, old(db.sent), m, junk) && RowsGive(ok, rows, r)
      ensures m.th == l.th.(pc := Resume(db.schema, l.th, r, junk))
      ensures ok ==> rows == MatchingRows(MetBy(l, old(db.sent)).users, username)
      ensures ok == (old(db.sent) !in db.fails)
    {
      hide Resume, NextStatement, Amid;
      var met := MetBy(l, db.sent);
      r := Execute(db.schema, met, l.last, SelectUser(username), db.sent !in db.fails).result;
      m := LocalStep(db.schema, l.(T := met), db.sent !in db.fails, junk);
      AmidUnfolds(db.schema, l, db.fails, db.world, db.sent, junk);
      LastMatchIsFound(met.users, username);
      ok, rows := db.QueryUsers(username);
    }

    /** getUserID (source/srv_db.cpp:216-256): the id in the last row, 0 when there is none. A name the
        filter refuses, or no connection, gives 0 without a statement. */
    method GetUserID(username: string, ghost l: Local, ghost junk: Sight)
      returns (id: int, ghost r: Result, ghost m: Local)
      requires At(l) && !l.th.pc.Done? && NextStatement(l.th) == SelectUser(username)
      modifies db, this`connectionStatus
      ensures connectionStatus == (old(connectionStatus) || reachable)
      ensures if connectionStatus && QueryText.Accepted(db.schema.reserved, username)
              then m.th == l.th.(pc := Resume(db.schema, l.th, r, junk)) && id == UserId(r)
                   && Leads(l, old(db.sent), m, junk)
              else id == 0 && m == l && unchanged(db)
    {
      hide Resume, Leads, NextStatement;
      id, r, m := 0, Failure, l;
      var connected := Connect();
      if !connected {
        return;
      }
      var accepted := QueryText.CheckString(db.schema.reserved, username);
      if !accepted {
        return;
      }
      var ok, results;
      ok, results, r, m := QueryUser(username, l, junk);
      if !ok {
        return;
      }
      for i := 0 to |results|
        invariant id == if i == 0 then 0 else results[i - 1].id
      {
        id := results[i].id;
      }
    }

    /** createUser (source/srv_db.cpp:91-161). */
    method CreateUser(username: string, password: string, email: string, ghost l: Local, ghost junk: Sight)
      returns (code: int)
      requires At(l)
      requires l.th.req.username == username && l.th.req.password == password && l.th.req.p1 == email
      requires (QueryText.Accepted(db.schema.reserved, username) && QueryText.Accepted(db.schema.reserved, password)
                && QueryText.Accepted(db.schema.reserved, email)) ==> l.th.pc.UserCheck?
      modifies db, this`connectionStatus
      ensures connectionStatus == (old(connectionStatus) || reachable)
      ensures var reserved := db.schema.reserved;
        if !connectionStatus then code == 1002 && unchanged(db)
        else if QueryText.Accepted(reserved, username) && QueryText.Accepted(reserved, password)
                && QueryText.Accepted(reserved, email)
        then Ends(l, old(db.sent), junk, Code(code))
        else code == 1013 && unchanged(db)
    {
      hide Amid;
      var connected := Connect();
      if !connected {
        return 1002;
      }
      var nameOk := QueryText.CheckString(db.schema.reserved, username);
      var passwordOk := QueryText.CheckString(db.schema.reserved, password);
      var emailOk := QueryText.CheckString(db.schema.reserved, email);
      if !nameOk || !passwordOk || !emailOk {
        return 1013;
      }
      var ok, results;
      ghost var r, m;
      ok, results, r, m := QueryUser(username, l, junk);
      if !ok {
        return 1003;
      }
      var resultUser := "";
      for i := 0 to |results|
        invariant resultUser == if i == 0 then "" else results[i - 1].name
      {
        resultUser := results[i].name;
      }
      if resultUser == username {
        return 1006;
      } else {
        code := StoreUser(username, password, email, m, junk);
      }
    }

    method StoreUser(username: string, password: string, email: string, ghost l: Local, ghost junk: Sight)
      returns (code: int)
      requires At(l) && l.th.pc.UserInsert?
      requires l.th.req.username == username && l.th.req.password == password && l.th.req.p1 == email
      modifies db
      ensures Ends(l, old(db.sent), junk, Code(code))
    {
      hide Amid, Execute, LocalStep, AfterLogin, ContestStart, MayUpdate;
      var inserted, m := Send(InsertUser(username, password, email), l, junk);
      if inserted.Success? {
        return 1005;
      }
      if inserted.EmailTaken? {
        return 1008;
      }
      return 1003;
    }

    /** authenticateUser (source/srv_db.cpp:163-214). On success `m` is the request just past its login. */
    method AuthenticateUser(username: string, password: string, ghost l: Local, ghost junk: Sight)
      returns (ok: bool, ghost m: Local)
      requires At(l) && l.th.req.username == username && l.th.req.password == password
      requires (QueryText.Accepted(db.schema.reserved, username) && QueryText.Accepted(db.schema.reserved, password))
               ==> l.th.pc.Login?
      modifies db, this`connectionStatus
      ensures connectionStatus == (old(connectionStatus) || reachable)
      ensures var reserved := db.schema.reserved;
        if connectionStatus && QueryText.Accepted(reserved, username) && QueryText.Accepted(reserved, password)
        then
          && Leads(l, old(db.sent), m, junk) && ok == Fits(l, old(db.sent))
          && m.th == l.th.(pc := if ok then AfterLogin(db.schema, l.th) else Refuse(1010))
        else !ok && unchanged(db)
    {
      hide AfterLogin, Amid, FindUser, MatchingRows;
      ok, m := false, l;
      var connected := Connect();
      if !connected {
        return;
      }
      var nameOk := QueryText.CheckString(db.schema.reserved, username);
      var passwordOk := QueryText.CheckString(db.schema.reserved, password);
      if !nameOk || !passwordOk {
        return;
      }
      var answered, results;
      ghost var r;
      LastMatchIsFound(MetBy(l, db.sent).users, username);
      answered, results, r, m := QueryUser(username, l, junk);
      if !answered {
        return;
      }
      var resultPw := "";
      for i := 0 to |results|
        invariant resultPw == if i == 0 then "" else results[i - 1].password
      {
        resultPw := results[i].password;
      }
      ok := resultPw == password;
    }

    /** createContest (source/srv_db.cpp:340-412). */
    method CreateContest(username: string, contestName: string, permissions: string, endtime: string,
                         ghost l: Local, ghost junk: Sight) returns (answer: Answer)
      requires At(l) && l.th.req.username == username && l.th.req.p1 == contestName && l.th.req.p2 == permissions
      requires Endtime(l.th.req) == endtime
      requires var start := ContestStart(db.schema, l.th.req); l.th.pc == start
      modifies db, this`connectionStatus
      ensures connectionStatus == (old(connectionStatus) || reachable)
      ensures if !connectionStatus then answer == Code(1002) && unchanged(db)
              else if !QueryText.Accepted(db.schema.reserved, username) then answer == Code(1013) && unchanged(db)
              else if l.th.pc.Done? then Done(answer) == l.th.pc && unchanged(db)
              else Ends(l, old(db.sent), junk, answer)
    {
      hide Amid, Execute, LocalStep, AfterLogin, MayUpdate;
      var connected := Connect();
      if !connected {
        return Code(1002);
      }
      var nameOk := QueryText.CheckString(db.schema.reserved, username);
      var titleOk := QueryText.CheckString(db.schema.reserved, contestName);
      var permissionOk := QueryText.CheckString(db.schema.reserved, permissions);
      var endtimeOk := QueryText.CheckString(db.schema.reserved, endtime);
      if !nameOk || !titleOk || !permissionOk || !endtimeOk {
        return Code(1013);
      }
      ghost var r, m := Failure, l;
      var permission: int;
      var number := Stoi(permissions);
      if number.Some? {
        permission := number.value;
        if permission > 0 || permission < -1 {
          return Code(1013);
        }
      } else {
        permission := -2;
        permission, r, m := GetUserID(permissions, m, junk);
        if permission == 0 {
          return Code(1013);
        }
      }
      answer := StoreContest(username, contestName, permission, endtime, m, junk);
    }

    /** The rest of createContest, once the permission is a number. */
    method StoreContest(username: string, contestName: string, permission: int, endtime: string,
                        ghost l: Local, ghost junk: Sight) returns (answer: Answer)
      requires connectionStatus && QueryText.Accepted(db.schema.reserved, username)
      requires At(l) && l.th.pc == CreatorUser(permission) && l.th.req.username == username
      requires l.th.req.p1 == contestName && Endtime(l.th.req) == endtime
      modifies db, this`connectionStatus
      ensures connectionStatus && Ends(l, old(db.sent), junk, answer)
    {
      hide Amid, Execute, LocalStep, AfterLogin, ContestStart, MayUpdate;
      var userid;
      ghost var r, m;
      userid, r, m := GetUserID(username, l, junk);
      if userid == 0 {
        return Code(1013);
      }
      answer := InsertContestRow(userid, contestName, permission, endtime, m, junk);
    }

    /** The INSERT of createContest and the SELECT of its key. */
    method InsertContestRow(userid: int, contestName: string, permission: int, endtime: string,
                            ghost l: Local, ghost junk: Sight) returns (answer: Answer)
      requires At(l) && l.th.pc == ContestInsert(userid, permission)
      requires l.th.req.p1 == contestName && Endtime(l.th.req) == endtime
      modifies db
      ensures Ends(l, old(db.sent), junk, answer)
    {
      hide Amid, Execute, LocalStep, AfterLogin, ContestStart, MayUpdate;
      var inserted, selected;
      ghost var m;
      inserted, m := Send(InsertContest(userid, contestName, permission, endtime), l, junk);
      if !inserted.Success? {
        return Code(1003);
      }
      selected, m := Send(SelectLastId, m, junk);
      if !selected.LastId? {
        return Code(1003);
      }
      answer := ContestKey(selected.id);
    }

    /** insertImage (source/srv_db.cpp:480-523): the id of the stored image, or 0. */
    method InsertImage(username: string, base64image: string, ghost l: Local, ghost junk: Sight)
      returns (imageid: int, ghost m: Local)
      requires connectionStatus && QueryText.Accepted(db.schema.reserved, username)
      requires At(l) && l.th.req.username == username
      requires (l.th.pc.ImageOwner? && l.th.req.p2 == base64image)
               || (l.th.pc.ThumbOwner? && l.th.req.p4 == base64image)
      modifies db, this`connectionStatus
      ensures connectionStatus && Leads(l, old(db.sent), m, junk)
      ensures m.th.req == l.th.req && m.th.slot == l.th.slot && m.th.contest == l.th.contest
      ensures m.th.pc == if imageid == 0 then Refuse(999)
                         else if l.th.pc.ImageOwner? then ThumbOwner(l.th.pc.uid, l.th.pc.sight, imageid)
                         else if l.th.slot == 1 || l.th.slot == 2
                         then SlotUpdate(l.th.pc.uid, l.th.pc.sight, l.th.pc.image, imageid)
                         else Refuse(1013)
    {
      hide Amid, Execute, LocalStep, AfterLogin, ContestStart, MayUpdate;
      var userid;
      ghost var r;
      userid, r, m := GetUserID(username, l, junk);
      if userid == 0 {
        return 0, m;
      }
      imageid, m := StoreImage(userid, base64image, m, junk);
    }

    /** The INSERT of insertImage and the SELECT of its key. */
    method StoreImage(userid: int, base64image: string, ghost l: Local, ghost junk: Sight)
      returns (imageid: int, ghost m: Local)
      requires At(l)
      requires (l.th.pc.ImageInsert? && l.th.req.p2 == base64image)
               || (l.th.pc.ThumbInsert? && l.th.req.p4 == base64image)
      requires l.th.pc.owner == userid
      modifies db
      ensures Leads(l, old(db.sent), m, junk)
      ensures m.th.req == l.th.req && m.th.slot == l.th.slot && m.th.contest == l.th.contest
      ensures m.th.pc == if imageid == 0 then Refuse(999)
                         else if l.th.pc.ImageInsert? then ThumbOwner(l.th.pc.uid, l.th.pc.sight, imageid)
                         else if l.th.slot == 1 || l.th.slot == 2
                         then SlotUpdate(l.th.pc.uid, l.th.pc.sight, l.th.pc.image, imageid)
                         else Refuse(1013)
    {
      hide Amid, Execute, LocalStep, AfterLogin, ContestStart, MayUpdate;
      var selected, inserted;
      inserted, m := Send(Statement.InsertImage(userid, base64image), l, junk);
      if !inserted.Success? {
        return 0, m;
      }
      selected, m := Send(SelectLastId, m, junk);
      if !selected.LastId? {
        return 0, m;
      }
      imageid := selected.id;
    }

    /** updateImage (source/srv_db.cpp:525-659). `garbage` is what its uninitialised locals hold. */
    method UpdateImage(username: string, contestID: int, image: string, imgslot: int, thumb: string,
                       garbage: Sight, ghost l: Local) returns (code: int)
      requires At(l) && l.th.pc.ImageUser? && l.th.contest == contestID && l.th.slot == imgslot
      requires l.th.req.username == username && l.th.req.p2 == image && l.th.req.p4 == thumb
      modifies db, this`connectionStatus
      ensures connectionStatus == (old(connectionStatus) || reachable)
      ensures if !connectionStatus then code == 1002 && unchanged(db)
              else if !QueryText.Accepted(db.schema.reserved, username) then code == 1013 && unchanged(db)
              else Ends(l, old(db.sent), garbage, Code(code))
    {
      hide Amid, Execute, LocalStep, AfterLogin, ContestStart, MayUpdate;
      var connected := Connect();
      if !connected {
        return 1002;
      }
      var nameOk := QueryText.CheckString(db.schema.reserved, username);
      if !nameOk {
        return 1013;
      }
      ghost var r, m;
      var userid;
      userid, r, m := GetUserID(username, l, garbage);
      if userid == 0 {
        return 1002;
      }
      code := UpdateOf(username, userid, contestID, image, imgslot, thumb, garbage, m);
    }

    /** The rest of updateImage, once its user is known. */
    method UpdateOf(username: string, userid: int, contestID: int, image: string, imgslot: int, thumb: string,
                    garbage: Sight, ghost l: Local) returns (code: int)
      requires connectionStatus && QueryText.Accepted(db.schema.reserved, username)
      requires At(l) && l.th.pc == ImageSight(userid) && l.th.contest == contestID && l.th.slot == imgslot
      requires l.th.req.username == username && l.th.req.p2 == image && l.th.req.p4 == thumb
      modifies db, this`connectionStatus
      ensures connectionStatus && Ends(l, old(db.sent), garbage, Code(code))
    {
      hide Amid, Execute, LocalStep, AfterLogin, ContestStart, MayUpdate;
      var selected;
      ghost var m;
      selected, m := Send(SelectContest(contestID), l, garbage);
      if selected.Failure? {
        return 1012;
      }
      var user1, user2, permission := garbage.user1, garbage.user2, garbage.permissions;
      if selected.ContestFound? {
        user1, user2, permission := selected.row.user1, selected.row.user2, selected.row.permissions;
      }
      ghost var sight := Sight(selected.ContestFound?, user1, user2, permission);
      var allowed := CheckSlot(imgslot, userid, user1, user2, permission, sight);
      if !allowed {
        return 1000;
      }
      assert m.th.pc == ImageOwner(userid, sight);
      code := SetSlot(username, userid, contestID, image, imgslot, thumb, garbage, m);
    }

    /** The slot check (source/srv_db.cpp:580-607). */
    method CheckSlot(imgslot: int, userid: int, user1: int, user2: int, permission: int, ghost sight: Sight)
      returns (allowed: bool)
      requires sight.user1 == user1 && sight.user2 == user2 && sight.permissions == permission
      ensures allowed == MayUpdate(imgslot, userid, sight)
    {
      if permission == -2 {
        return false;
      } else if imgslot == 1 && (user1 == 0 || user1 == userid) {
      } else if imgslot == 2 && (user2 == 0 || user2 == userid) {
      } else {
        if permission == 0 {
        } else if permission == -1 {
        } else if imgslot == 1 && user1 == 0 && permission == userid {
        } else if imgslot == 2 && user2 == 0 && permission == userid {
        } else {
          return false;
        }
      }
      return true;
    }

    /** The rest of updateImage, once the slot check is passed. */
    method SetSlot(username: string, userid: int, contestID: int, image: string, imgslot: int, thumb: string,
                   ghost garbage: Sight, ghost l: Local) returns (code: int)
      requires connectionStatus && QueryText.Accepted(db.schema.reserved, username)
      requires At(l) && l.th.pc.ImageOwner? && l.th.pc.uid == userid
      requires l.th.contest == contestID && l.th.slot == imgslot
      requires l.th.req.username == username && l.th.req.p2 == image && l.th.req.p4 == thumb
      modifies db, this`connectionStatus
      ensures connectionStatus && Ends(l, old(db.sent), garbage, Code(code))
    {
      hide Amid, Execute, LocalStep, AfterLogin, ContestStart, MayUpdate, Resume;
      ghost var m;
      var imageid, thumbid, updated;
      imageid, m := InsertImage(username, image, l, garbage);
      if imageid == 0 {
        return 999;
      }
      thumbid, m := InsertImage(username, thumb, m, garbage);
      if thumbid == 0 {
        return 999;
      }
      if imgslot != 1 && imgslot != 2 {
        return 1013;
      }
      updated, m := WriteSlot(contestID, imgslot, imageid, userid, thumbid, m, garbage);
      return if updated then 1011 else 1012;
    }

    method WriteSlot(contestID: int, imgslot: int, imageid: int, userid: int, thumbid: int,
                     ghost l: Local, ghost garbage: Sight) returns (updated: bool, ghost m: Local)
      requires At(l) && l.th.pc.SlotUpdate? && l.th.contest == contestID && l.th.slot == imgslot
      requires l.th.pc.uid == userid && l.th.pc.image == imageid && l.th.pc.thumb == thumbid
      modifies db
      ensures Leads(l, old(db.sent), m, garbage) && m.th.pc == Refuse(if updated then 1011 else 1012)
    {
      hide Amid, Execute, LocalStep, AfterLogin, ContestStart, MayUpdate;
      var r;
      r, m := Send(UpdateSlot(contestID, imgslot, imageid, userid, thumbid), l, garbage);
      updated := r.Success?;
    }

    /** The two lookups addFriend and removeFriend begin with; both are made before either is tested. */
    method BothUsers(username: string, friendname: string, ghost l: Local, ghost junk: Sight)
      returns (userid: int, user2id: int, ghost m: Local)
      requires connectionStatus && QueryText.Accepted(db.schema.reserved, username)
      requires QueryText.Accepted(db.schema.reserved, friendname)
      requires At(l) && l.th.pc.FriendUser? && l.th.req.username == username && l.th.req.p1 == friendname
      modifies db, this`connectionStatus
      ensures connectionStatus && Leads(l, old(db.sent), m, junk)
      ensures m.th == l.th.(pc := if userid == 0 || user2id == 0 then Refuse(1013)
                                  else if l.th.kind.AddFriend? then FriendInsert(userid, user2id)
                                  else UnfriendOne(userid, user2id))
    {
      hide Amid, Execute, LocalStep, AfterLogin, ContestStart, MayUpdate;
      ghost var r;
      userid, r, m := GetUserID(username, l, junk);
      assert m.th.pc == FriendOther(userid);
      user2id, r, m := GetUserID(friendname, m, junk);
    }

    /** addFriend (source/srv_db.cpp:929-973). */
    method AddFriend(username: string, friendname: string, ghost l: Local, ghost junk: Sight) returns (answer: Answer)
      requires At(l) && l.th.kind.AddFriend? && l.th.req.username == username && l.th.req.p1 == friendname
      requires QueryText.Accepted(db.schema.reserved, friendname) ==> l.th.pc.FriendUser?
      modifies db, this`connectionStatus
      ensures connectionStatus == (old(connectionStatus) || reachable)
      ensures if !connectionStatus then answer == Code(1002) && unchanged(db)
              else if !QueryText.Accepted(db.schema.reserved, username)
                      || !QueryText.Accepted(db.schema.reserved, friendname)
              then answer == Code(1013) && unchanged(db)
              else Ends(l, old(db.sent), junk, answer)
    {
      hide Amid, Execute, LocalStep, AfterLogin, ContestStart, MayUpdate, Resume, NextStatement;
      var connected := Connect();
      if !connected {
        return Code(1002);
      }
      var nameOk := QueryText.CheckString(db.schema.reserved, username);
      var friendOk := QueryText.CheckString(db.schema.reserved, friendname);
      if !nameOk || !friendOk {
        return Code(1013);
      }
      ghost var m;
      var userid, user2id;
      userid, user2id, m := BothUsers(username, friendname, l, junk);
      if userid == 0 || user2id == 0 {
        return Code(1013);
      }
      answer := InsertPair(userid, user2id, m, junk);
    }

    method InsertPair(userid: int, user2id: int, ghost l: Local, ghost junk: Sight) returns (answer: Answer)
      requires At(l) && l.th.pc == FriendInsert(userid, user2id)
      modifies db
      ensures Ends(l, old(db.sent), junk, answer)
    {
      hide Amid, Execute, LocalStep, AfterLogin, ContestStart, MayUpdate;
      var inserted, m := Send(InsertFriend(userid, user2id), l, junk);
      if !inserted.Success? {
        return Code(1003);
      }
      return Code(1000);
    }

    /** removeFriend (source/srv_db.cpp:975-1022): both directions are deleted, one after the other. */
    method RemoveFriend(username: string, friendname: string, ghost l: Local, ghost junk: Sight)
      returns (answer: Answer)
      requires At(l) && l.th.kind.RemoveFriend? && l.th.req.username == username && l.th.req.p1 == friendname
      requires QueryText.Accepted(db.schema.reserved, friendname) ==> l.th.pc.FriendUser?
      modifies db, this`connectionStatus
      ensures connectionStatus == (old(connectionStatus) || reachable)
      ensures if !connectionStatus then answer == Code(1002) && unchanged(db)
              else if !QueryText.Accepted(db.schema.reserved, username)
                      || !QueryText.Accepted(db.schema.reserved, friendname)
              then answer == Code(1013) && unchanged(db)
              else Ends(l, old(db.sent), junk, answer)
    {
      hide Amid, Execute, LocalStep, AfterLogin, ContestStart, MayUpdate, Resume, NextStatement;
      var connected := Connect();
      if !connected {
        return Code(1002);
      }
      var nameOk := QueryText.CheckString(db.schema.reserved, username);
      var friendOk := QueryText.CheckString(db.schema.reserved, friendname);
      if !nameOk || !friendOk {
        return Code(1013);
      }
      ghost var m;
      var userid, user2id;
      userid, user2id, m := BothUsers(username, friendname, l, junk);
      if userid == 0 || user2id == 0 {
        return Code(1013);
      }
      answer := DeleteBoth(userid, user2id, m, junk);
    }

    /** The two DELETEs of removeFriend. */
    method DeleteBoth(userid: int, user2id: int, ghost l: Local, ghost junk: Sight) returns (answer: Answer)
      requires At(l) && l.th.pc == UnfriendOne(userid, user2id)
      modifies db
      ensures Ends(l, old(db.sent), junk, answer)
    {
      hide Amid, Execute, LocalStep, AfterLogin, ContestStart, MayUpdate;
      var deleted;
      ghost var m;
      deleted, m := Send(DeleteFriend(userid, user2id), l, junk);
      if !deleted.Success? {
        return Code(1003);
      }
      deleted, m := Send(DeleteFriend(user2id, userid), m, junk);
      if !deleted.Success? {
        return Code(1003);
      }
      return Code(1000);
    }

    /** getMyFriends and getFriendRequests (source/srv_db.cpp:820-927) up to their result rows. */
    method ListPeople(username: string, mutual: bool, ghost l: Local, ghost junk: Sight) returns (answer: Answer)
      requires At(l) && l.th.pc.ListUser? && l.th.req.username == username && l.th.kind.MyFriends? == mutual
      modifies db, this`connectionStatus
      ensures connectionStatus == (old(connectionStatus) || reachable)
      ensures if !connectionStatus then answer == Code(1002) && unchanged(db)
              else if !QueryText.Accepted(db.schema.reserved, username) then answer == Code(1013) && unchanged(db)
              else Ends(l, old(db.sent), junk, answer)
    {
      hide Amid, Execute, LocalStep, AfterLogin, ContestStart, MayUpdate;
      var connected := Connect();
      if !connected {
        return Code(1002);
      }
      var nameOk := QueryText.CheckString(db.schema.reserved, username);
      if !nameOk {
        return Code(1013);
      }
      ghost var r, m;
      var userid;
      userid, r, m := GetUserID(username, l, junk);
      if userid == 0 {
        return Code(1013);
      }
      answer := ReadPeople(userid, mutual, m, junk);
    }

    /** The list query of getMyFriends or getFriendRequests. */
    method ReadPeople(userid: int, mutual: bool, ghost l: Local, ghost junk: Sight) returns (answer: Answer)
      requires At(l) && l.th.pc == ListRows(userid) && l.th.kind.MyFriends? == mutual
      modifies db
      ensures Ends(l, old(db.sent), junk, answer)
    {
      hide Amid, Execute, LocalStep, AfterLogin, ContestStart, MayUpdate;
      var listed, m := Send(if mutual then SelectFriends(userid) else SelectRequests(userid), l, junk);
      if !listed.People? {
        return Code(1003);
      }
      return Names(listed.ids);
    }

    /** The three statements of vote's try block; the first failure skips the rest of it. */
    method CastVote(userid: int, contestid: int, imgslot: int, ghost l: Local, ghost junk: Sight)
      returns (r: Result, caught: bool, ghost m: Local)
      requires At(l) && l.th.pc == VoteInsert(userid) && l.th.contest == contestid && l.th.slot == imgslot
      modifies db
      ensures Leads(l, old(db.sent), m, junk) && m.th.contest == contestid
      ensures m.th.pc == if caught then VoteRetry(userid) else Done(Board(ScoresOf(r)))
    {
      hide Amid, Execute, LocalStep, AfterLogin, ContestStart, MayUpdate;
      r, m := Send(InsertVoted(userid, contestid), l, junk);
      if !r.Success? {
        return r, true, m;
      }
      r, m := Send(AddVote(contestid, imgslot), m, junk);
      if !r.Success? {
        return r, true, m;
      }
      r, m := Send(SelectScores(contestid), m, junk);
      caught := r.Failure?;
    }

    /** vote (source/srv_db.cpp:1059-1137). */
    method Vote(username: string, contestid: int, imgslot: int, ghost l: Local, ghost junk: Sight)
      returns (answer: Answer)
      requires At(l) && l.th.req.username == username && l.th.contest == contestid && l.th.slot == imgslot
      requires imgslot == 1 || imgslot == 2 ==> l.th.pc.VoteUser?
      modifies db, this`connectionStatus
      ensures connectionStatus == (old(connectionStatus) || reachable)
      ensures if !connectionStatus || !QueryText.Accepted(db.schema.reserved, username)
                 || !(imgslot == 1 || imgslot == 2)
              then answer == Code(1001) && unchanged(db)
              else Ends(l, old(db.sent), junk, answer)
    {
      hide Amid, Execute, LocalStep, AfterLogin, ContestStart, MayUpdate;
      var connected := Connect();
      if !connected {
        return Code(1001);
      }
      var nameOk := QueryText.CheckString(db.schema.reserved, username);
      if !nameOk {
        return Code(1001);
      }
      if imgslot != 1 && imgslot != 2 {
        return Code(1001);
      }
      ghost var looked, m;
      var userid, caught, r;
      userid, looked, m := GetUserID(username, l, junk);
      if userid == 0 {
        return Code(1001);
      }
      assert m.th.pc == VoteInsert(userid);
      r, caught, m := CastVote(userid, contestid, imgslot, m, junk);
      if caught {
        answer := ReadScoresAgain(contestid, m, junk);
        return;
      }
      return Board(ScoresOf(r));
    }

    /** The catch block of vote. */
    method ReadScoresAgain(contestid: int, ghost l: Local, ghost junk: Sight) returns (answer: Answer)
      requires At(l) && l.th.pc.VoteRetry? && l.th.contest == contestid
      modifies db
      ensures Ends(l, old(db.sent), junk, answer)
    {
      hide Amid, Execute, LocalStep, AfterLogin, ContestStart, MayUpdate;
      var r, m := Send(SelectScores(contestid), l, junk);
      if r.Failure? {
        return Code(1001);
      }
      return Board(ScoresOf(r));
    }

    /** publicGetImage (source/srv_db.cpp:708-777). */
    method PublicGetImage(contestid: int, slot: int, ghost l: Local, ghost junk: Sight) returns (answer: Answer)
      requires At(l) && l.th.contest == contestid && l.th.slot == slot
      requires contestid != 0 && (slot == 1 || slot == 2) ==> l.th.pc.PictureId?
      modifies db, this`connectionStatus
      ensures connectionStatus == (old(connectionStatus) || reachable)
      ensures if !connectionStatus then answer == Code(1002) && unchanged(db)
              else if contestid == 0 || !(slot == 1 || slot == 2) then answer == Code(1003) && unchanged(db)
              else Ends(l, old(db.sent), junk, answer)
    {
      hide Amid, Execute, LocalStep, AfterLogin, ContestStart, MayUpdate;
      var connected := Connect();
      if !connected {
        return Code(1002);
      }
      if contestid == 0 {
        return Code(1003);
      }
      if slot != 1 && slot != 2 {
        return Code(1003);
      }
      ghost var m;
      var r;
      r, m := Send(SelectImageId(contestid, slot), l, junk);
      if r.Failure? {
        return Code(1003);
      }
      var imageID := -1;
      if r.ImageId? {
        imageID := r.id;
      }
      answer := ImageText(imageID, m, junk);
    }

    /** The second query of publicGetImage. */
    method ImageText(imageID: int, ghost l: Local, ghost junk: Sight) returns (answer: Answer)
      requires At(l) && l.th.pc == PictureText(imageID)
      modifies db
      ensures Ends(l, old(db.sent), junk, answer)
    {
      hide Amid, Execute, LocalStep, AfterLogin, ContestStart, MayUpdate;
      var r, m := Send(SelectImage(imageID), l, junk);
      if r.Failure? {
        return Code(1003);
      }
      var resultStr := "";
      if r.ImageFound? {
        resultStr := r.text;
      }
      return Picture(resultStr);
    }
  }
}
