/** Friendship as a function of what was asked (source/srv_db.cpp:820-1022). */
module Friendship {
  import opened Text
  import opened Tables
  import opened Requests
  import opened FriendQueries
  import opened SerialRuns
  import Integrity
  import QueryText

  // ---------- every interleaving: one directed row ----------

  /** At this event a request sends this statement, and it is not struck by an outside failure. */
  ghost predicate Sends(s: Sys, e: Event, st: Statement) {
    e.Send? && e.ok && s.Active(e.t) && NextStatement(s.threads[e.t]) == st
  }

  /** What an event means for the row from a to b. */
  datatype Mark = Asked | Deleted | Neither

  ghost function MarkOf(s: Sys, e: Event, a: int, b: int): Mark {
    if Sends(s, e, InsertFriend(a, b)) then Asked
    else if Sends(s, e, DeleteFriend(a, b)) then Deleted
    else Neither
  }

  ghost function Marks(s: Sys, es: seq<Event>, a: int, b: int): (marks: seq<Mark>)
    ensures |marks| == |es|
  {
    if es == [] then []
    else Marks(s, es[..|es| - 1], a, b) + [MarkOf(RunFrom(s, es[..|es| - 1]), es[|es| - 1], a, b)]
  }

  /** Asked for at some event and not deleted at any later one. */
  ghost predicate AskedSinceDeleted(marks: seq<Mark>) {
    exists i :: 0 <= i < |marks| && marks[i] == Asked
      && forall j :: i < j < |marks| ==> marks[j] != Deleted
  }

  lemma StatementOnEdge(schema: Schema, T: Tables, last: int, st: Statement, ok: bool, a: int, b: int)
    ensures var U := Execute(schema, T, last, st, ok).tables;
      Edge(a, b) in U.friends <==>
        if ok && st == InsertFriend(a, b) then true
        else if ok && st == DeleteFriend(a, b) then false
        else Edge(a, b) in T.friends
  {
  }

  lemma StepOnEdge(s: Sys, e: Event, a: int, b: int)
    ensures Edge(a, b) in Step(s, e).T.friends <==>
            MarkOf(s, e, a, b) == Asked || (Edge(a, b) in s.T.friends && MarkOf(s, e, a, b) != Deleted)
  {
    if e.Send? && s.Active(e.t) {
      StatementOnEdge(s.schema, s.T, s.last[e.t], NextStatement(s.threads[e.t]), e.ok, a, b);
      hide Execute, NextStatement, Resume;
    }
  }

  lemma AskedExtends(marks: seq<Mark>, m: Mark)
    ensures AskedSinceDeleted(marks + [m]) <==> m == Asked || (AskedSinceDeleted(marks) && m != Deleted)
  {
    var more := marks + [m];
    assert more[|marks|] == m;
    if AskedSinceDeleted(marks) {
      var i :| 0 <= i < |marks| && marks[i] == Asked && forall j :: i < j < |marks| ==> marks[j] != Deleted;
      assert more[i] == Asked;
    }
    if AskedSinceDeleted(more) {
      var i :| 0 <= i < |more| && more[i] == Asked && forall j :: i < j < |more| ==> more[j] != Deleted;
      if i < |marks| {
        assert marks[i] == Asked;
        assert forall j :: i < j < |marks| ==> marks[j] == more[j];
      }
    }
  }

  /** In every run a directed row is stored exactly when it was asked for after its last deletion,
      whether the table stores duplicates or refuses them. */
  lemma {:induction false} RowIsHistory(schema: Schema, es: seq<Event>, a: int, b: int)
    ensures Edge(a, b) in Run(schema, es).T.friends <==> AskedSinceDeleted(Marks(Init(schema), es, a, b))
  {
    if es == [] {
    } else {
      var ds, e := es[..|es| - 1], es[|es| - 1];
      RowIsHistory(schema, ds, a, b);
      StepOnEdge(Run(schema, ds), e, a, b);
      AskedExtends(Marks(Init(schema), ds, a, b), MarkOf(Run(schema, ds), e, a, b));
      hide Step, AskedSinceDeleted, MarkOf;
    }
  }

  /** So the friend list is decided by the two directions' histories, in every run. */
  lemma FriendListIsHistory(schema: Schema, es: seq<Event>, a: int, b: int)
    ensures b in MutualFriends(Run(schema, es).T.friends, a) <==>
            AskedSinceDeleted(Marks(Init(schema), es, a, b)) && AskedSinceDeleted(Marks(Init(schema), es, b, a))
  {
    MutualFriendsMeaning(Run(schema, es).T.friends, a, b);
    RowIsHistory(schema, es, a, b);
    RowIsHistory(schema, es, b, a);
  }

  // ---------- serial runs: whole requests ----------

  datatype FriendOp = Add(a: int, b: int) | Remove(a: int, b: int)

  function Apply(schema: Schema, rows: seq<Edge>, op: FriendOp): seq<Edge> {
    match op
    case Add(a, b) => if schema.uniqueFriends && Edge(a, b) in rows then rows else rows + [Edge(a, b)]
    case Remove(a, b) => Without(Without(rows, Edge(a, b)), Edge(b, a))
  }

  function ApplyAll(schema: Schema, ops: seq<FriendOp>): seq<Edge> {
    if ops == [] then [] else Apply(schema, ApplyAll(schema, ops[..|ops| - 1]), ops[|ops| - 1])
  }

  /** An addFriend from a to b later than every removeFriend between the two. */
  ghost predicate AddedSinceRemoved(ops: seq<FriendOp>, a: int, b: int) {
    exists i :: 0 <= i < |ops| && ops[i] == Add(a, b)
      && forall j :: i < j < |ops| ==> ops[j] != Remove(a, b) && ops[j] != Remove(b, a)
  }

  lemma AddedExtends(ops: seq<FriendOp>, op: FriendOp, a: int, b: int)
    ensures AddedSinceRemoved(ops + [op], a, b) <==>
            op == Add(a, b) || (AddedSinceRemoved(ops, a, b) && op != Remove(a, b) && op != Remove(b, a))
  {
    var more := ops + [op];
    assert more[|ops|] == op;
    if AddedSinceRemoved(ops, a, b) {
      var i :| 0 <= i < |ops| && ops[i] == Add(a, b)
        && forall j :: i < j < |ops| ==> ops[j] != Remove(a, b) && ops[j] != Remove(b, a);
      assert more[i] == Add(a, b);
    }
    if AddedSinceRemoved(more, a, b) {
      var i :| 0 <= i < |more| && more[i] == Add(a, b)
        && forall j :: i < j < |more| ==> more[j] != Remove(a, b) && more[j] != Remove(b, a);
      if i < |ops| {
        assert ops[i] == Add(a, b);
        assert forall j :: i < j < |ops| ==> ops[j] == more[j];
      }
    }
  }

  lemma {:induction false} RowsAreOperations(schema: Schema, ops: seq<FriendOp>, a: int, b: int)
    ensures Edge(a, b) in ApplyAll(schema, ops) <==> AddedSinceRemoved(ops, a, b)
  {
    if ops == [] {
    } else {
      var before, op := ops[..|ops| - 1], ops[|ops| - 1];
      assert ops == before + [op];
      RowsAreOperations(schema, before, a, b);
      AddedExtends(before, op, a, b);
      hide AddedSinceRemoved;
    }
  }

  /** b is in a's friend list exactly when each has added the other since the last removal. */
  lemma FriendsAreOperations(schema: Schema, ops: seq<FriendOp>, a: int, b: int)
    ensures b in MutualFriends(ApplyAll(schema, ops), a) <==>
            AddedSinceRemoved(ops, a, b) && AddedSinceRemoved(ops, b, a)
  {
    MutualFriendsMeaning(ApplyAll(schema, ops), a, b);
    RowsAreOperations(schema, ops, a, b);
    RowsAreOperations(schema, ops, b, a);
  }

  /** What a request asks of the friends table: nothing, unless it is an addFriend or removeFriend of
      an authenticated user naming an existing one. */
  function Asks(schema: Schema, T: Tables, req: Request): seq<FriendOp> {
    var kind := KindOf(req.requestid);
    var a, b := FindUser(T.users, req.username), FindUser(T.users, req.p1);
    if !(kind.AddFriend? || kind.RemoveFriend?) then []
    else if !QueryText.Accepted(schema.reserved, req.username)
           || !QueryText.Accepted(schema.reserved, req.password) then []
    else if a == 0 || T.users[a - 1].password != req.password then []
    else if req.p1 == "" || !QueryText.Accepted(schema.reserved, req.p1) || b == 0 then []
    else [if kind.AddFriend? then Add(a, b) else Remove(a, b)]
  }

  function AllAsked(schema: Schema, reqs: seq<Request>): seq<FriendOp> {
    if reqs == [] then []
    else
      var before := reqs[..|reqs| - 1];
      AllAsked(schema, before) + Asks(schema, ServeAll(schema, before), reqs[|reqs| - 1])
  }

  predicate FriendPc(pc: Pc) {
    pc.FriendUser? || pc.FriendOther? || pc.FriendInsert? || pc.UnfriendOne? || pc.UnfriendTwo?
  }

  lemma OthersKeepFriends(schema: Schema, l: Local, ok: bool, junk: Sight)
    requires !FriendPc(l.th.pc)
    requires l.th.pc.Login? ==> !l.th.kind.AddFriend? && !l.th.kind.RemoveFriend?
    ensures var m := LocalStep(schema, l, ok, junk);
      m.T.friends == l.T.friends && !FriendPc(m.th.pc) && (m.th.pc.Login? ==> l.th.pc.Done?)
  {
    var st := NextStatement(l.th);
    var r := Execute(schema, l.T, l.last, st, ok).result;
    assert !st.InsertFriend? && !st.DeleteFriend?;
    OthersStayOut(schema, l.th, r, junk);
    hide Resume, NextStatement;
  }

  lemma OthersStayOut(schema: Schema, th: Thread, r: Result, junk: Sight)
    requires !FriendPc(th.pc)
    requires th.pc.Login? ==> !th.kind.AddFriend? && !th.kind.RemoveFriend?
    ensures var pc := Resume(schema, th, r, junk); !FriendPc(pc) && (pc.Login? ==> th.pc.Done?)
  {
    if th.pc.Login? {
      AfterLoginGoesTo(schema, th);
      hide AfterLogin, MayUpdate;
    } else {
      hide AfterLogin, MayUpdate, UserId, KeyOf, ScoresOf;
    }
  }

  lemma {:induction false} OthersAloneKeepFriends(schema: Schema, l: Local, fails: set<nat>, n: nat, junk: Sight)
    requires !FriendPc(l.th.pc)
    requires l.th.pc.Login? ==> !l.th.kind.AddFriend? && !l.th.kind.RemoveFriend?
    ensures Alone(schema, l, fails, n, junk).T.friends == l.T.friends
    decreases StepsLeft(l.th.pc)
  {
    if !l.th.pc.Done? {
      EachStatementCountsDown(schema, l, n !in fails, junk);
      OthersKeepFriends(schema, l, n !in fails, junk);
      hide LocalStep;
      OthersAloneKeepFriends(schema, LocalStep(schema, l, n !in fails, junk), fails, n + 1, junk);
    }
  }

  lemma FriendLookups(schema: Schema, l: Local, junk: Sight)
    requires l.th.pc.FriendUser?
    ensures var a, b := FindUser(l.T.users, l.th.req.username), FindUser(l.T.users, l.th.req.p1);
      var m := LocalStep(schema, LocalStep(schema, l, true, junk), true, junk);
      && !LocalStep(schema, l, true, junk).th.pc.Done?
      && m.T == l.T && m.th.kind == l.th.kind
      && m.th.pc == if a == 0 || b == 0 then Refuse(1013)
                    else if l.th.kind.AddFriend? then FriendInsert(a, b) else UnfriendOne(a, b)
  {
    FirstLookup(schema, l, junk);
    SecondLookup(schema, LocalStep(schema, l, true, junk), junk);
    hide LocalStep;
  }

  lemma FirstLookup(schema: Schema, l: Local, junk: Sight)
    requires l.th.pc.FriendUser?
    ensures var m := LocalStep(schema, l, true, junk);
      m.T == l.T && m.th == l.th.(pc := FriendOther(FindUser(l.T.users, l.th.req.username)))
  {
  }

  lemma SecondLookup(schema: Schema, l: Local, junk: Sight)
    requires l.th.pc.FriendOther?
    ensures var m := LocalStep(schema, l, true, junk);
      var b := FindUser(l.T.users, l.th.req.p1);
      && m.T == l.T && m.th.kind == l.th.kind
      && m.th.pc == if l.th.pc.uid == 0 || b == 0 then Refuse(1013)
                    else if l.th.kind.AddFriend? then FriendInsert(l.th.pc.uid, b)
                    else UnfriendOne(l.th.pc.uid, b)
  {
  }

  lemma InsertStep(schema: Schema, l: Local, junk: Sight)
    requires l.th.pc.FriendInsert?
    ensures var m := LocalStep(schema, l, true, junk);
      m.T.friends == Apply(schema, l.T.friends, Add(l.th.pc.uid, l.th.pc.other)) && m.th.pc.Done?
  {
  }

  lemma FirstDelete(schema: Schema, l: Local, junk: Sight)
    requires l.th.pc.UnfriendOne?
    ensures var m := LocalStep(schema, l, true, junk);
      && m.T.friends == Without(l.T.friends, Edge(l.th.pc.uid, l.th.pc.other))
      && m.th.pc == UnfriendTwo(l.th.pc.uid, l.th.pc.other)
  {
    hide Without;
  }

  lemma SecondDelete(schema: Schema, l: Local, junk: Sight)
    requires l.th.pc.UnfriendTwo?
    ensures var m := LocalStep(schema, l, true, junk);
      m.T.friends == Without(l.T.friends, Edge(l.th.pc.other, l.th.pc.uid)) && m.th.pc.Done?
  {
    hide Without;
  }

  lemma FriendWrites(schema: Schema, l: Local, n: nat, junk: Sight)
    requires l.th.pc.FriendInsert? || l.th.pc.UnfriendOne?
    ensures Alone(schema, l, {}, n, junk).T.friends ==
            Apply(schema, l.T.friends, if l.th.pc.FriendInsert? then Add(l.th.pc.uid, l.th.pc.other)
                                       else Remove(l.th.pc.uid, l.th.pc.other))
  {
    var l1 := LocalStep(schema, l, true, junk);
    AloneUnfolds(schema, l, {}, n, junk);
    if l.th.pc.FriendInsert? {
      InsertStep(schema, l, junk);
    } else {
      FirstDelete(schema, l, junk);
      SecondDelete(schema, l1, junk);
      AloneUnfolds(schema, l1, {}, n + 1, junk);
    }
    hide LocalStep, Alone;
  }

  lemma FriendRequestAlone(schema: Schema, l: Local, n: nat, junk: Sight)
    requires l.th.pc.FriendUser? && (l.th.kind.AddFriend? || l.th.kind.RemoveFriend?)
    ensures var a, b := FindUser(l.T.users, l.th.req.username), FindUser(l.T.users, l.th.req.p1);
      Alone(schema, l, {}, n, junk).T.friends ==
        if a == 0 || b == 0 then l.T.friends
        else Apply(schema, l.T.friends, if l.th.kind.AddFriend? then Add(a, b) else Remove(a, b))
  {
    var l1 := LocalStep(schema, l, true, junk);
    var l2 := LocalStep(schema, l1, true, junk);
    FriendLookups(schema, l, junk);
    hide LocalStep, Apply;
    AloneUnfolds(schema, l, {}, n, junk);
    AloneUnfolds(schema, l1, {}, n + 1, junk);
    hide Alone;
    if !l2.th.pc.Done? {
      FriendWrites(schema, l2, n + 2, junk);
    }
  }

  lemma FriendBegin(schema: Schema, req: Request)
    requires var kind := KindOf(req.requestid); kind.AddFriend? || kind.RemoveFriend?
    ensures var th := Begin(schema, req);
      && th.kind == KindOf(req.requestid) && th.req == req
      && th.pc == if QueryText.Accepted(schema.reserved, req.username)
                    && QueryText.Accepted(schema.reserved, req.password)
                  then Login else Refuse(1010)
  {
  }

  /** An addFriend or removeFriend with this password and these parameters gets past its login. */
  predicate LogsIn(schema: Schema, T: Tables, req: Request) {
    var a := FindUser(T.users, req.username);
    && (if a == 0 then "" else T.users[a - 1].password) == req.password
    && req.p1 != "" && QueryText.Accepted(schema.reserved, req.p1)
  }

  lemma FriendLogin(schema: Schema, l: Local, junk: Sight)
    requires l.th.pc.Login? && (l.th.kind.AddFriend? || l.th.kind.RemoveFriend?)
    ensures var m := LocalStep(schema, l, true, junk);
      && m.T == l.T
      && if LogsIn(schema, l.T, l.th.req) then m.th == l.th.(pc := FriendUser) else m.th.pc.Done?
  {
  }

  /** What an addFriend or removeFriend, from its login on, does to the friends table. */
  lemma LoginServes(schema: Schema, l: Local, junk: Sight)
    requires l.th.pc.Login? && (l.th.kind.AddFriend? || l.th.kind.RemoveFriend?)
    ensures var a, b := FindUser(l.T.users, l.th.req.username), FindUser(l.T.users, l.th.req.p1);
      Alone(schema, l, {}, 0, junk).T.friends ==
        if !LogsIn(schema, l.T, l.th.req) || a == 0 || b == 0 then l.T.friends
        else Apply(schema, l.T.friends, if l.th.kind.AddFriend? then Add(a, b) else Remove(a, b))
  {
    var l1 := LocalStep(schema, l, true, junk);
    FriendLogin(schema, l, junk);
    AloneUnfolds(schema, l, {}, 0, junk);
    hide LocalStep, Apply, Alone, LogsIn, FindUser;
    if LogsIn(schema, l.T, l.th.req) {
      FriendRequestAlone(schema, l1, 1, junk);
    }
  }

  lemma OthersBeginOutside(schema: Schema, req: Request)
    ensures var th := Begin(schema, req); !FriendPc(th.pc) && th.kind == KindOf(req.requestid)
  {
  }

  lemma ServeFriends(schema: Schema, T: Tables, req: Request)
    ensures Serve(schema, T, req).friends ==
            var ops := Asks(schema, T, req);
            if ops == [] then T.friends else Apply(schema, T.friends, ops[0])
  {
    var junk := Sight(false, 0, 0, 0);
    var l := Local(T, 0, Begin(schema, req));
    var kind := KindOf(req.requestid);
    OthersBeginOutside(schema, req);
    if kind.AddFriend? || kind.RemoveFriend? {
      FriendBegin(schema, req);
      hide Begin, KindOf, LocalStep, Apply, QueryText.Accepted, FindUser;
      if !l.th.pc.Done? {
        LoginServes(schema, l, junk);
      }
    } else {
      hide Begin, KindOf, FriendPc;
      OthersAloneKeepFriends(schema, l, {}, 0, junk);
    }
    hide Alone;
  }

  lemma {:induction false} ServeAllFriends(schema: Schema, reqs: seq<Request>)
    ensures ServeAll(schema, reqs).friends == ApplyAll(schema, AllAsked(schema, reqs))
  {
    if reqs == [] {
    } else {
      var before, req := reqs[..|reqs| - 1], reqs[|reqs| - 1];
      ServeAllFriends(schema, before);
      ServeFriends(schema, ServeAll(schema, before), req);
      var done, ops := AllAsked(schema, before), Asks(schema, ServeAll(schema, before), req);
      hide Serve, Apply, Asks;
      assert |ops| <= 1 by { AsksAtMostOne(schema, ServeAll(schema, before), req); }
      if ops == [] {
        assert done + ops == done;
      } else {
        assert ops == [ops[0]];
        assert (done + ops)[..|done + ops| - 1] == done;
      }
    }
  }

  lemma AsksAtMostOne(schema: Schema, T: Tables, req: Request)
    ensures |Asks(schema, T, req)| <= 1
  {
  }

  /** In every serial run without failures, b is in a's friend list exactly when each of the two has
      an accepted addFriend of the other later than the last accepted removeFriend between them,
      whether the table stores duplicates or refuses them. */
  lemma FriendshipInSerialRuns(schema: Schema, reqs: seq<Request>, a: int, b: int)
    ensures var ops := AllAsked(schema, reqs);
      b in MutualFriends(ServeAll(schema, reqs).friends, a) <==>
      AddedSinceRemoved(ops, a, b) && AddedSinceRemoved(ops, b, a)
  {
    ServeAllFriends(schema, reqs);
    FriendsAreOperations(schema, AllAsked(schema, reqs), a, b);
  }
}
