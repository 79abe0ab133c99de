/** What holds of the tables and of every request in flight, in every run from empty tables. */
module Integrity {
  import opened Text
  import opened Tables
  import opened Requests
  import opened FriendQueries

  ghost predicate NamedUser(T: Tables, id: int, name: string) {
    T.IsUser(id) && T.NameOf(id) == name
  }

  ghost predicate GoodPermission(T: Tables, permission: int) {
    permission == -1 || permission == 0 || T.IsUser(permission)
  }

  /** An image row carrying this text, owned by a user of this name. */
  ghost predicate ImageBy(T: Tables, id: int, name: string) {
    T.IsImage(id) && NamedUser(T, T.ImageRow(id).owner, name)
  }

  ghost predicate OwnImage(T: Tables, id: int, name: string, text: string) {
    ImageBy(T, id, name) && T.ImageRow(id).text == text
  }

  /** A slot is as created, or shows an image and a thumbnail of the user it names. */
  ghost predicate GoodSlot(T: Tables, user: int, image: int, thumb: int) {
    || (image == 0 && thumb == 0)
    || (T.IsUser(user) && ImageBy(T, image, T.NameOf(user)) && ImageBy(T, thumb, T.NameOf(user)))
  }

  ghost predicate GoodContest(T: Tables, row: Contest) {
    && T.IsUser(row.user1)
    && (row.user2 == 0 || T.IsUser(row.user2))
    && GoodPermission(T, row.permissions)
    && GoodSlot(T, row.user1, row.image1, row.thumb1)
    && GoodSlot(T, row.user2, row.image2, row.thumb2)
    && (row.user2 == 0 ==> row.image2 == 0)
  }

  ghost predicate GoodTables(T: Tables) {
    && (forall id :: T.IsUser(id) ==> T.NameOf(id) != "")
    && (forall c :: T.IsContest(c) ==> GoodContest(T, T.ContestRow(c)))
    && (forall i :: T.IsImage(i) ==> T.IsUser(T.ImageRow(i).owner))
    && (forall e <- T.friends :: T.IsUser(e.userid) && T.IsUser(e.friendid))
    && (forall v <- T.voted :: T.IsUser(v.0))
  }

  /** The permission a createContest request asks for: -1 or 0 as a number, or else the account of a
      user name. */
  ghost predicate AskedFor(T: Tables, req: Request, permission: int) {
    match Stoi(req.p2)
    case Some(n) => permission == n && (n == -1 || n == 0)
    case None => NamedUser(T, permission, req.p2)
  }

  /** The contest row a createContest request inserted. */
  ghost predicate OwnContest(T: Tables, id: int, th: Thread) {
    && T.IsContest(id)
    && T.ContestRow(id).title == th.req.p1
    && T.ContestRow(id).endtime == Endtime(th.req)
    && AskedFor(T, th.req, T.ContestRow(id).permissions)
  }

  /** Which kinds of request can be at which step. */
  ghost predicate KindFits(kind: Kind, pc: Pc) {
    match pc
    case Login => !kind.CreateUser?
    case UserCheck | UserInsert => kind.CreateUser?
    case PermitUser | CreatorUser(_) | ContestInsert(_, _) | ContestLastId(_, _) => kind.CreateContest?
    case ImageUser | ImageSight(_) | ImageOwner(_, _) | ImageInsert(_, _, _) | ImageLastId(_, _)
       | ThumbOwner(_, _, _) | ThumbInsert(_, _, _, _) | ThumbLastId(_, _, _)
       | SlotUpdate(_, _, _, _) => kind.UpdateImage?
    case FriendUser | FriendOther(_) => kind.AddFriend? || kind.RemoveFriend?
    case FriendInsert(_, _) => kind.AddFriend?
    case UnfriendOne(_, _) | UnfriendTwo(_, _) => kind.RemoveFriend?
    case ListUser | ListRows(_) => kind.MyFriends? || kind.FriendRequests?
    case VoteUser | VoteInsert(_) | VoteUpdate(_) | VoteScores(_) | VoteRetry(_) => kind.Vote?
    case PictureId | PictureText(_) => kind.GetImage?
    case Done(ContestKey(_)) => kind.CreateContest?
    case Done(Board(_)) => kind.Vote?
    case Done(Picture(_)) => kind.GetImage?
    case Done(_) => true
  }

  /** What a request's locals say about the tables. */
  ghost predicate GoodThread(T: Tables, last: int, th: Thread) {
    var name := th.req.username;
    && KindFits(th.kind, th.pc)
    && match th.pc
       case Login | UserCheck | ImageUser | FriendUser | ListUser | VoteUser
          | PictureId | PictureText(_) => th.made == []
       case PermitUser => Stoi(th.req.p2).None? && th.made == []
       case UserInsert => name != "" && th.made == []
       case CreatorUser(permission) => AskedFor(T, th.req, permission) && th.made == []
       case ContestInsert(uid, permission) =>
         NamedUser(T, uid, name) && AskedFor(T, th.req, permission) && th.made == []
       case ContestLastId(uid, permission) => th.made == [last] && OwnContest(T, last, th)
       case ImageSight(uid) => NamedUser(T, uid, name) && th.made == []
       case ImageOwner(uid, _) => NamedUser(T, uid, name) && th.made == []
       case ImageInsert(uid, _, owner) => NamedUser(T, uid, name) && NamedUser(T, owner, name) && th.made == []
       case ImageLastId(uid, _) =>
         NamedUser(T, uid, name) && th.made == [last] && OwnImage(T, last, name, th.req.p2)
       case ThumbOwner(uid, _, image) =>
         NamedUser(T, uid, name) && th.made == [image] && OwnImage(T, image, name, th.req.p2)
       case ThumbInsert(uid, _, image, owner) =>
         && NamedUser(T, uid, name) && NamedUser(T, owner, name)
         && th.made == [image] && OwnImage(T, image, name, th.req.p2)
       case ThumbLastId(uid, _, image) =>
         && NamedUser(T, uid, name) && image != last
         && th.made == [image, last] && OwnImage(T, image, name, th.req.p2) && OwnImage(T, last, name, th.req.p4)
       case SlotUpdate(uid, _, image, thumb) =>
         && NamedUser(T, uid, name) && image != thumb && (th.slot == 1 || th.slot == 2)
         && th.made == [image, thumb] && OwnImage(T, image, name, th.req.p2) && OwnImage(T, thumb, name, th.req.p4)
       case FriendOther(uid) => uid == 0 || NamedUser(T, uid, name)
       case FriendInsert(uid, other) => NamedUser(T, uid, name) && NamedUser(T, other, th.req.p1)
       case UnfriendOne(uid, other) => NamedUser(T, uid, name) && NamedUser(T, other, th.req.p1)
       case UnfriendTwo(uid, other) => NamedUser(T, uid, name) && NamedUser(T, other, th.req.p1)
       case ListRows(uid) => NamedUser(T, uid, name)
       case VoteInsert(uid) => NamedUser(T, uid, name)
       case VoteUpdate(uid) => NamedUser(T, uid, name)
       case VoteScores(uid) => NamedUser(T, uid, name)
       case VoteRetry(uid) => NamedUser(T, uid, name)
       case Done(ContestKey(k)) => th.made == [k] && OwnContest(T, k, th)
       case Done(_) => true
  }

  ghost predicate Good(s: Sys) {
    && s.last.Keys == s.threads.Keys
    && GoodTables(s.T)
    && forall t :: t in s.threads ==> GoodThread(s.T, s.last[t], s.threads[t])
  }

  // ---------- preservation ----------

  /** Nothing another connection does can falsify what a request relies on. */
  lemma GoodThreadStable(T: Tables, U: Tables, last: int, th: Thread)
    requires GoodThread(T, last, th) && Grows(T, U)
    ensures GoodThread(U, last, th)
  {
    assert forall id :: T.IsUser(id) ==> U.IsUser(id) && U.NameOf(id) == T.NameOf(id);
    assert forall id :: T.IsImage(id) ==> U.IsImage(id) && U.ImageRow(id) == T.ImageRow(id);
    assert forall c :: T.IsContest(c) ==> KeepsTerms(T.ContestRow(c), U.ContestRow(c));
  }

  lemma LocalStepGrows(schema: Schema, l: Local, ok: bool, junk: Sight)
    ensures Grows(l.T, LocalStep(schema, l, ok, junk).T)
  {
    ExecuteGrows(schema, l.T, l.last, NextStatement(l.th), ok);
  }

  lemma AfterLoginFits(schema: Schema, T: Tables, last: int, th: Thread)
    requires th.pc.Login? && GoodThread(T, last, th)
    ensures GoodThread(T, last, th.(pc := AfterLogin(schema, th)))
  {
    AfterLoginGoesTo(schema, th);
    hide AfterLogin, Stoi;
  }

  lemma LoginStepGood(schema: Schema, l: Local, ok: bool, junk: Sight)
    requires GoodThread(l.T, l.last, l.th) && l.th.pc.Login?
    ensures var m := LocalStep(schema, l, ok, junk); GoodThread(m.T, m.last, m.th)
  {
    AfterLoginFits(schema, l.T, l.last, l.th);
    hide AfterLogin;
    assert LocalStep(schema, l, ok, junk).T == l.T;
  }

  lemma OwnImageStable(T: Tables, U: Tables, id: int, name: string, text: string)
    requires OwnImage(T, id, name, text) && Grows(T, U)
    ensures OwnImage(U, id, name, text)
  {
  }

  lemma ImageInsertGood(schema: Schema, l: Local, ok: bool, junk: Sight)
    requires GoodThread(l.T, l.last, l.th) && l.th.pc.ImageInsert?
    ensures var m := LocalStep(schema, l, ok, junk); GoodThread(m.T, m.last, m.th)
  {
    var image := Image(l.th.pc.owner, l.th.req.p2);
    assert (l.T.images + [image])[|l.T.images|] == image;
  }

  lemma ThumbInsertGood(schema: Schema, l: Local, ok: bool, junk: Sight)
    requires GoodThread(l.T, l.last, l.th) && l.th.pc.ThumbInsert?
    ensures var m := LocalStep(schema, l, ok, junk); GoodThread(m.T, m.last, m.th)
  {
    var image := Image(l.th.pc.owner, l.th.req.p4);
    assert (l.T.images + [image])[|l.T.images|] == image;
    LocalStepGrows(schema, l, ok, junk);
    OwnImageStable(l.T, LocalStep(schema, l, ok, junk).T, l.th.pc.image, l.th.req.username, l.th.req.p2);
  }

  /** A lookup of a user name changes only the program counter, and finds a user of that name if any. */
  lemma LookupStep(schema: Schema, l: Local, ok: bool, junk: Sight, name: string) returns (r: Result)
    requires NextStatement(l.th) == SelectUser(name)
    ensures LocalStep(schema, l, ok, junk) == l.(th := l.th.(pc := Resume(schema, l.th, r, junk)))
    ensures UserId(r) == 0 || (NamedUser(l.T, UserId(r), name) && UserId(r) == FindUser(l.T.users, name))
  {
    r := Execute(schema, l.T, l.last, SelectUser(name), ok).result;
    hide Resume, NextStatement;
  }

  predicate IsSelect(st: Statement) {
    || st.SelectContest? || st.SelectLastId? || st.SelectScores? || st.SelectImageId? || st.SelectImage?
    || st.SelectFriends? || st.SelectRequests? || st.NoStatement?
  }

  /** So does every other query; LAST_INSERT_ID() is the session's own. */
  lemma SelectStep(schema: Schema, l: Local, ok: bool, junk: Sight) returns (r: Result)
    requires IsSelect(NextStatement(l.th))
    ensures LocalStep(schema, l, ok, junk) == l.(th := l.th.(pc := Resume(schema, l.th, r, junk)))
    ensures r.LastId? ==> r.id == l.last
  {
    r := Execute(schema, l.T, l.last, NextStatement(l.th), ok).result;
    hide Resume, NextStatement, MutualFriends, Requesters;
  }

  lemma AccountStepGood(schema: Schema, l: Local, ok: bool, junk: Sight)
    requires GoodThread(l.T, l.last, l.th)
    requires l.th.pc.UserCheck? || l.th.pc.PermitUser? || l.th.pc.CreatorUser? || l.th.pc.ContestLastId?
    ensures var m := LocalStep(schema, l, ok, junk); GoodThread(m.T, m.last, m.th)
  {
    hide LocalStep, Execute, FindUser, Stoi;
    if l.th.pc.ContestLastId? {
      var r := SelectStep(schema, l, ok, junk);
    } else if l.th.pc.UserCheck? {
      UserCheckGood(schema, l, ok, junk);
    } else {
      var name := if l.th.pc.PermitUser? then l.th.req.p2 else l.th.req.username;
      var r := LookupStep(schema, l, ok, junk, name);
    }
  }

  lemma UserCheckGood(schema: Schema, l: Local, ok: bool, junk: Sight)
    requires GoodThread(l.T, l.last, l.th) && l.th.pc.UserCheck?
    ensures var m := LocalStep(schema, l, ok, junk); GoodThread(m.T, m.last, m.th)
  {
  }

  lemma ContestInsertGood(schema: Schema, l: Local, ok: bool, junk: Sight)
    requires GoodThread(l.T, l.last, l.th) && (l.th.pc.ContestInsert? || l.th.pc.UserInsert?)
    ensures var m := LocalStep(schema, l, ok, junk); GoodThread(m.T, m.last, m.th)
  {
    if l.th.pc.ContestInsert? {
      assert LocalStep(schema, l, ok, junk).T.users == l.T.users;
    }
  }

  lemma ImageStepGood(schema: Schema, l: Local, ok: bool, junk: Sight)
    requires GoodThread(l.T, l.last, l.th)
    requires l.th.pc.ImageUser? || l.th.pc.ImageSight? || l.th.pc.ImageOwner? || l.th.pc.ImageLastId?
             || l.th.pc.ThumbOwner? || l.th.pc.ThumbLastId? || l.th.pc.SlotUpdate?
    ensures var m := LocalStep(schema, l, ok, junk); GoodThread(m.T, m.last, m.th)
  {
    hide LocalStep, Execute, OwnImage, NamedUser, FindUser;
    hide MayUpdate;
    if l.th.pc.SlotUpdate? {
      SlotUpdateGood(schema, l, ok, junk);
    } else if l.th.pc.ImageUser? || l.th.pc.ImageOwner? || l.th.pc.ThumbOwner? {
      var r := LookupStep(schema, l, ok, junk, l.th.req.username);
    } else {
      var r := SelectStep(schema, l, ok, junk);
    }
  }

  lemma SlotUpdateGood(schema: Schema, l: Local, ok: bool, junk: Sight)
    requires l.th.pc.SlotUpdate? && KindFits(l.th.kind, l.th.pc)
    ensures var m := LocalStep(schema, l, ok, junk); GoodThread(m.T, m.last, m.th)
  {
    assert LocalStep(schema, l, ok, junk).th.pc in [Refuse(1011), Refuse(1012)];
  }

  lemma LocalStepGoodThread(schema: Schema, l: Local, ok: bool, junk: Sight)
    requires GoodThread(l.T, l.last, l.th)
    ensures var m := LocalStep(schema, l, ok, junk); GoodThread(m.T, m.last, m.th)
  {
    hide LocalStep, GoodThread;
    match l.th.pc
    case Login => LoginStepGood(schema, l, ok, junk);
    case UserCheck | PermitUser | CreatorUser(_) | ContestLastId(_, _) => AccountStepGood(schema, l, ok, junk);
    case UserInsert | ContestInsert(_, _) => ContestInsertGood(schema, l, ok, junk);
    case ImageInsert(_, _, _) => ImageInsertGood(schema, l, ok, junk);
    case ThumbInsert(_, _, _, _) => ThumbInsertGood(schema, l, ok, junk);
    case ImageUser | ImageSight(_) | ImageOwner(_, _) | ImageLastId(_, _) | ThumbOwner(_, _, _)
       | ThumbLastId(_, _, _) | SlotUpdate(_, _, _, _) => ImageStepGood(schema, l, ok, junk);
    case FriendUser | FriendOther(_) | FriendInsert(_, _) | UnfriendOne(_, _) | UnfriendTwo(_, _) =>
      FriendStepGood(schema, l, ok, junk);
    case ListUser | ListRows(_) | PictureId | PictureText(_) | Done(_) => ReadStepGood(schema, l, ok, junk);
    case VoteUser | VoteInsert(_) | VoteUpdate(_) | VoteScores(_) | VoteRetry(_) => VoteStepGood(schema, l, ok, junk);
  }

  lemma FriendStepGood(schema: Schema, l: Local, ok: bool, junk: Sight)
    requires GoodThread(l.T, l.last, l.th)
    requires l.th.pc.FriendUser? || l.th.pc.FriendOther? || l.th.pc.FriendInsert? || l.th.pc.UnfriendOne?
             || l.th.pc.UnfriendTwo?
    ensures var m := LocalStep(schema, l, ok, junk); GoodThread(m.T, m.last, m.th)
  {
    hide LocalStep, Execute, NamedUser, FindUser;
    if l.th.pc.FriendUser? {
      var r := LookupStep(schema, l, ok, junk, l.th.req.username);
    } else if l.th.pc.FriendOther? {
      var r := LookupStep(schema, l, ok, junk, l.th.req.p1);
    } else {
      FriendWriteGood(schema, l, ok, junk);
    }
  }

  lemma FriendWriteGood(schema: Schema, l: Local, ok: bool, junk: Sight)
    requires GoodThread(l.T, l.last, l.th)
    requires l.th.pc.FriendInsert? || l.th.pc.UnfriendOne? || l.th.pc.UnfriendTwo?
    ensures var m := LocalStep(schema, l, ok, junk); GoodThread(m.T, m.last, m.th)
  {
    hide Without;
    assert LocalStep(schema, l, ok, junk).T.users == l.T.users;
  }

  lemma ReadStepGood(schema: Schema, l: Local, ok: bool, junk: Sight)
    requires GoodThread(l.T, l.last, l.th)
    requires l.th.pc.ListUser? || l.th.pc.ListRows? || l.th.pc.PictureId? || l.th.pc.PictureText? || l.th.pc.Done?
    ensures var m := LocalStep(schema, l, ok, junk); GoodThread(m.T, m.last, m.th)
  {
    hide LocalStep, Execute, NamedUser, FindUser;
    if l.th.pc.ListUser? {
      var r := LookupStep(schema, l, ok, junk, l.th.req.username);
    } else {
      var r := SelectStep(schema, l, ok, junk);
    }
  }

  lemma VoteStepGood(schema: Schema, l: Local, ok: bool, junk: Sight)
    requires GoodThread(l.T, l.last, l.th)
    requires l.th.pc.VoteUser? || l.th.pc.VoteInsert? || l.th.pc.VoteUpdate?
             || l.th.pc.VoteScores? || l.th.pc.VoteRetry?
    ensures var m := LocalStep(schema, l, ok, junk); GoodThread(m.T, m.last, m.th)
  {
    hide LocalStep, Execute, NamedUser, FindUser;
    if l.th.pc.VoteUser? {
      var r := LookupStep(schema, l, ok, junk, l.th.req.username);
    } else if l.th.pc.VoteScores? || l.th.pc.VoteRetry? {
      var r := SelectStep(schema, l, ok, junk);
    } else {
      VoteWriteGood(schema, l, ok, junk);
    }
  }

  lemma VoteWriteGood(schema: Schema, l: Local, ok: bool, junk: Sight)
    requires GoodThread(l.T, l.last, l.th) && (l.th.pc.VoteInsert? || l.th.pc.VoteUpdate?)
    ensures var m := LocalStep(schema, l, ok, junk); GoodThread(m.T, m.last, m.th)
  {
    assert LocalStep(schema, l, ok, junk).T.users == l.T.users;
  }

  /** Contest rows stay good as long as accounts and images are only added. */
  lemma GoodContestStable(T: Tables, U: Tables, row: Contest)
    requires GoodContest(T, row) && Grows(T, U)
    ensures GoodContest(U, row)
  {
    assert forall id :: T.IsUser(id) ==> U.IsUser(id) && U.NameOf(id) == T.NameOf(id);
    assert forall id :: T.IsImage(id) ==> U.IsImage(id) && U.ImageRow(id) == T.ImageRow(id);
  }

  lemma ContestsStayGood(schema: Schema, l: Local, ok: bool, junk: Sight, c: int)
    requires GoodTables(l.T) && GoodThread(l.T, l.last, l.th)
    requires LocalStep(schema, l, ok, junk).T.IsContest(c)
    ensures var U := LocalStep(schema, l, ok, junk).T; GoodContest(U, U.ContestRow(c))
  {
    hide LocalStep;
    LocalStepGrows(schema, l, ok, junk);
    var U := LocalStep(schema, l, ok, junk).T;
    ContestRowAfter(schema, l, ok, junk, c);
    if l.T.IsContest(c) {
      GoodContestStable(l.T, U, l.T.ContestRow(c));
    }
  }

  /** The only ways a contest row comes to be what it is: unchanged, one more vote, a new row, or the
      slot of a request that is about to set it. */
  lemma ContestRowAfter(schema: Schema, l: Local, ok: bool, junk: Sight, c: int)
    requires LocalStep(schema, l, ok, junk).T.IsContest(c)
    ensures var U := LocalStep(schema, l, ok, junk).T;
      var row := U.ContestRow(c);
      if !l.T.IsContest(c) then
        l.th.pc.ContestInsert? && U.users == l.T.users
        && row == Contest(l.th.pc.uid, 0, l.th.req.p1, 0, 0, 0, 0, 0, 0, l.th.pc.permission, Endtime(l.th.req))
      else
        var was := l.T.ContestRow(c);
        || row == was.(score1 := row.score1, score2 := row.score2)
        || (l.th.pc.SlotUpdate? && U.images == l.T.images && U.users == l.T.users && c == l.th.contest
            && row == if l.th.slot == 1
                      then was.(image1 := l.th.pc.image, user1 := l.th.pc.uid, thumb1 := l.th.pc.thumb)
                      else was.(image2 := l.th.pc.image, user2 := l.th.pc.uid, thumb2 := l.th.pc.thumb))
  {
    var st := NextStatement(l.th);
    if !(st.UpdateSlot? || st.AddVote? || st.InsertContest?) {
      assert LocalStep(schema, l, ok, junk).T.contests == l.T.contests;
    }
  }

  lemma NamesStayNonempty(schema: Schema, l: Local, ok: bool, junk: Sight, id: int)
    requires GoodTables(l.T) && GoodThread(l.T, l.last, l.th) && LocalStep(schema, l, ok, junk).T.IsUser(id)
    ensures LocalStep(schema, l, ok, junk).T.NameOf(id) != ""
  {
    LocalStepGrows(schema, l, ok, junk);
    hide GoodContest;
    var U := LocalStep(schema, l, ok, junk).T;
    assert l.T.IsUser(id) ==> U.NameOf(id) == l.T.NameOf(id);
  }

  lemma OwnersStayUsers(schema: Schema, l: Local, ok: bool, junk: Sight, i: int)
    requires GoodTables(l.T) && GoodThread(l.T, l.last, l.th) && LocalStep(schema, l, ok, junk).T.IsImage(i)
    ensures var U := LocalStep(schema, l, ok, junk).T; U.IsUser(U.ImageRow(i).owner)
  {
    LocalStepGrows(schema, l, ok, junk);
    hide GoodContest;
    var U := LocalStep(schema, l, ok, junk).T;
    assert l.T.IsImage(i) ==> U.ImageRow(i) == l.T.ImageRow(i);
  }

  lemma FriendsStayUsers(schema: Schema, l: Local, ok: bool, junk: Sight, e: Edge)
    requires GoodTables(l.T) && GoodThread(l.T, l.last, l.th) && e in LocalStep(schema, l, ok, junk).T.friends
    ensures l.T.IsUser(e.userid) && l.T.IsUser(e.friendid)
  {
    hide GoodContest, Resume;
  }

  lemma VotersStayUsers(schema: Schema, l: Local, ok: bool, junk: Sight, v: (int, int))
    requires GoodTables(l.T) && GoodThread(l.T, l.last, l.th) && v in LocalStep(schema, l, ok, junk).T.voted
    ensures l.T.IsUser(v.0)
  {
    hide GoodContest, Resume;
  }

  lemma LocalStepGoodTables(schema: Schema, l: Local, ok: bool, junk: Sight)
    requires GoodTables(l.T) && GoodThread(l.T, l.last, l.th)
    ensures GoodTables(LocalStep(schema, l, ok, junk).T)
  {
    hide GoodContest, LocalStep, GoodThread;
    var U := LocalStep(schema, l, ok, junk).T;
    forall id | U.IsUser(id) ensures U.NameOf(id) != "" { NamesStayNonempty(schema, l, ok, junk, id); }
    forall i | U.IsImage(i) ensures U.IsUser(U.ImageRow(i).owner) { OwnersStayUsers(schema, l, ok, junk, i); }
    forall c | U.IsContest(c) ensures GoodContest(U, U.ContestRow(c)) { ContestsStayGood(schema, l, ok, junk, c); }
    LocalStepGrows(schema, l, ok, junk);
    forall e | e in U.friends
      ensures U.IsUser(e.userid) && U.IsUser(e.friendid)
    {
      FriendsStayUsers(schema, l, ok, junk, e);
    }
    forall v | v in U.voted ensures U.IsUser(v.0) { VotersStayUsers(schema, l, ok, junk, v); }
  }

  lemma OthersGood(s: Sys, t: nat, l: Local)
    requires Good(s) && Grows(s.T, l.T) && GoodTables(l.T) && GoodThread(l.T, l.last, l.th)
    ensures Good(s.Put(t, l))
  {
    forall u | u in s.threads && u != t
      ensures GoodThread(l.T, s.last[u], s.threads[u])
    {
      GoodThreadStable(s.T, l.T, s.last[u], s.threads[u]);
    }
  }

  lemma BeginGood(schema: Schema, T: Tables, req: Request)
    ensures GoodThread(T, 0, Begin(schema, req))
  {
  }

  lemma StepGood(s: Sys, e: Event)
    requires Good(s)
    ensures Good(Step(s, e))
  {
    match e
    case Arrive(t, req) =>
      if t !in s.threads && Admissible(req) {
        BeginGood(s.schema, s.T, req);
        OthersGood(s, t, Local(s.T, 0, Begin(s.schema, req)));
      }
    case Send(t, ok, junk) =>
      if s.Active(t) {
        var l := s.View(t);
        LocalStepGrows(s.schema, l, ok, junk);
        LocalStepGoodTables(s.schema, l, ok, junk);
        LocalStepGoodThread(s.schema, l, ok, junk);
        OthersGood(s, t, LocalStep(s.schema, l, ok, junk));
      }
  }

  lemma {:induction false} RunFromGood(s: Sys, es: seq<Event>)
    requires Good(s)
    ensures Good(RunFrom(s, es))
  {
    if es != [] {
      RunFromGood(s, es[..|es| - 1]);
      StepGood(RunFrom(s, es[..|es| - 1]), es[|es| - 1]);
    }
  }

  /** Every reachable state is good, whatever the interleaving and whichever statements fail. */
  lemma RunGood(schema: Schema, es: seq<Event>)
    ensures Good(Run(schema, es))
  {
    RunFromGood(Init(schema), es);
  }

  lemma StepGrows(s: Sys, e: Event)
    ensures Grows(s.T, Step(s, e).T)
  {
    if e.Send? && s.Active(e.t) {
      LocalStepGrows(s.schema, s.View(e.t), e.ok, e.junk);
    }
  }

  lemma {:induction false} RunGrows(s: Sys, es: seq<Event>)
    ensures Grows(s.T, RunFrom(s, es).T)
  {
    if es != [] {
      var mid := RunFrom(s, es[..|es| - 1]);
      RunGrows(s, es[..|es| - 1]);
      StepGrows(mid, es[|es| - 1]);
      GrowsTransitive(s.T, mid.T, RunFrom(s, es).T);
    }
  }

  /** Integrity of the stored ids: permissions are -1, 0 or an account and so never the locked value
      -2, and every nonzero id in a user column is an account. */
  lemma StoredIdsAreUsers(schema: Schema, es: seq<Event>)
    ensures var T := Run(schema, es).T;
      && (forall c :: T.IsContest(c) ==>
           var row := T.ContestRow(c);
           && row.permissions != -2
           && (row.permissions == -1 || row.permissions == 0 || T.IsUser(row.permissions))
           && T.IsUser(row.user1)
           && (row.user2 == 0 || T.IsUser(row.user2)))
      && (forall i :: T.IsImage(i) ==> T.IsUser(T.ImageRow(i).owner))
      && (forall e <- T.friends :: T.IsUser(e.userid) && T.IsUser(e.friendid))
      && (forall v <- T.voted :: T.IsUser(v.0))
  {
    RunGood(schema, es);
  }

  /** A contest's permission, title and end time are fixed at its creation, its scores never fall,
      and accounts, images and ballots are never lost. */
  lemma HistoryIsKept(schema: Schema, es: seq<Event>, fs: seq<Event>)
    ensures Grows(Run(schema, es).T, Run(schema, es + fs).T)
  {
    RunAppend(Init(schema), es, fs);
    RunGrows(Run(schema, es), fs);
  }
}
