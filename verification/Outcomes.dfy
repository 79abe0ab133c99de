/** What a request's own fields and its answer mean, in every interleaving. */
module Outcomes {
  import opened Text
  import opened Tables
  import opened FriendQueries
  import opened Requests
  import opened Accounts
  import opened Integrity
  import Friendship
  import Operations
  import Pictures
  import QueryText
  import ReservedWords
  import SerialRuns
  import Slots
  import Votes

  // ---------- the fields a request is served with are its own ----------

  predicate FieldsKept(th: Thread) {
    && th.kind == KindOf(th.req.requestid)
    && th.contest == Number(th.req.p1)
    && th.slot == Number(if th.req.requestid == "updateimage" then th.req.p3 else th.req.p2)
    && (!th.ballot.NoBallot? ==> th.req.requestid == "vote")
  }

  lemma StepKeepsFields(s: Sys, e: Event, t: nat)
    requires Good(s) && (t in s.threads ==> FieldsKept(s.threads[t])) && t in Step(s, e).threads
    ensures FieldsKept(Step(s, e).threads[t])
  {
    if e.Send? && e.t == t && s.Active(t) {
      assert GoodThread(s.T, s.last[t], s.threads[t]);
      StatementKeepsFields(s.schema, s.View(t), e.ok, e.junk);
    } else if t !in s.threads {
      BeginKeepsFields(s.schema, e.req);
    }
    hide LocalStep, Begin, FieldsKept;
  }

  lemma BeginKeepsFields(schema: Schema, req: Request)
    ensures FieldsKept(Begin(schema, req))
  {
    hide Number, QueryText.Accepted;
  }

  lemma VoteIsVote(requestid: string)
    ensures KindOf(requestid).Vote? <==> requestid == "vote"
  {
  }

  lemma StatementKeepsFields(schema: Schema, l: Local, ok: bool, junk: Sight)
    requires KindFits(l.th.kind, l.th.pc) && FieldsKept(l.th)
    ensures FieldsKept(LocalStep(schema, l, ok, junk).th)
  {
    VoteIsVote(l.th.req.requestid);
    BallotNeedsInsert(schema, l, ok, junk);
    hide Number, KindOf, Resume, Execute;
  }

  lemma BallotNeedsInsert(schema: Schema, l: Local, ok: bool, junk: Sight)
    requires KindFits(l.th.kind, l.th.pc)
    ensures l.th.ballot.NoBallot? && !l.th.kind.Vote? ==> LocalStep(schema, l, ok, junk).th.ballot.NoBallot?
  {
    hide Resume, Execute;
  }

  lemma {:induction false} RunKeepsFields(schema: Schema, es: seq<Event>, t: nat)
    ensures var s := Run(schema, es); t in s.threads ==> FieldsKept(s.threads[t])
  {
    if es != [] {
      var ds, e := es[..|es| - 1], es[|es| - 1];
      RunKeepsFields(schema, ds, t);
      RunGood(schema, ds);
      hide Step, FieldsKept, Good;
      if t in Run(schema, es).threads {
        StepKeepsFields(Run(schema, ds), e, t);
      }
    }
  }

  // ---------- votes ----------

  /** A request that asked for a vote for side `k` of contest `c`, and whose vote raised a score. */
  predicate RaisedFor(th: Thread, c: int, k: int) {
    && th.req.requestid == "vote" && Number(th.req.p1) == c && Number(th.req.p2) == k
    && th.ballot.Counted?
  }

  /** Over every interleaving each score is the number of requests for just that contest and side whose
      vote was counted. */
  lemma ScoreCountsRequests(schema: Schema, es: seq<Event>, c: int, k: int)
    requires k == 1 || k == 2
    ensures var s := Run(schema, es);
      Votes.Score(s.T, c, k) == |set t | t in s.threads && RaisedFor(s.threads[t], c, k)|
  {
    Votes.ScoreCountsVotes(schema, es, c, k);
    var s := Run(schema, es);
    hide Run, RaisedFor, Votes.HasFate;
    forall t | t in s.threads
      ensures RaisedFor(s.threads[t], c, k) <==> Votes.HasFate(s.threads[t], c, Votes.Raised(k))
    {
      RunKeepsFields(schema, es, t);
      RaisedIsFate(s.threads[t], c, k);
    }
    assert (set t | t in s.threads && RaisedFor(s.threads[t], c, k)) == Votes.Ids(s.threads, c, Votes.Raised(k));
  }

  lemma RaisedIsFate(th: Thread, c: int, k: int)
    requires FieldsKept(th)
    ensures RaisedFor(th, c, k) <==> Votes.HasFate(th, c, Votes.Raised(k))
  {
    hide Number, KindOf;
  }

  /** A vote served alone: the ballot is stored, the side asked for gains one, everything else stays, and
      both scores are answered as they then are. */
  lemma VoteCountsForItsSide(schema: Schema, T: Tables, req: Request, c: int, k: int, junk: Sight)
    requires req.requestid == "vote" && req.p1 != "" && req.p2 != "" && Operations.Authentic(schema, T, req)
    requires Stoi(req.p1) == Some(c) && Stoi(req.p2) == Some(k) && (k == 1 || k == 2) && T.IsContest(c)
    requires FindUser(T.users, req.username) != 0 && (FindUser(T.users, req.username), c) !in T.voted
    ensures var m := Operations.Finished(schema, Local(T, 0, Begin(schema, req)), junk);
      && m.T.voted == T.voted + {(FindUser(T.users, req.username), c)}
      && m.T.users == T.users && m.T.images == T.images && m.T.friends == T.friends
      && |m.T.contests| == |T.contests|
      && (forall d :: T.IsContest(d) && d != c ==> m.T.ContestRow(d) == T.ContestRow(d))
      && m.T.ContestRow(c) == T.ContestRow(c).(score1 := Votes.Score(T, c, 1) + (if k == 1 then 1 else 0),
                                               score2 := Votes.Score(T, c, 2) + (if k == 2 then 1 else 0))
      && m.th.pc == Done(Board(Some((Votes.Score(m.T, c, 1), Votes.Score(m.T, c, 2)))))
  {
    Operations.ServedAlone(schema, T, req, junk);
    hide Operations.Finished, Begin, Stoi, FindUser, Operations.Authentic;
  }

  // ---------- createcontest ----------

  /** A createcontest request served alone: exactly the contest asked for is stored, and its key
      answered; with a permission that is neither -1, 0 nor the name of a user, nothing is. */
  lemma ContestIsAsAsked(schema: Schema, T: Tables, req: Request, junk: Sight)
    requires req.requestid == "createcontest" && Operations.Authentic(schema, T, req) && req.p1 != "" && req.p2 != ""
    requires QueryText.Accepted(schema.reserved, req.p1) && QueryText.Accepted(schema.reserved, req.p2)
    requires req.p3 == "" ==> QueryText.Accepted(schema.reserved, "0000-00-00 00:00:00")
    requires req.p3 != "" ==> QueryText.Accepted(schema.reserved, req.p3)
    requires FindUser(T.users, req.username) != 0
    ensures var m := Operations.Finished(schema, Local(T, 0, Begin(schema, req)), junk);
      var u := FindUser(T.users, req.username);
      var endtime := if req.p3 == "" then "0000-00-00 00:00:00" else req.p3;
      var key := |T.contests| + 1;
      match (Stoi(req.p2), FindUser(T.users, req.p2))
      case (Some(n), _) =>
        if n == -1 || n == 0 then
          m.T == T.(contests := T.contests + [Contest(u, 0, req.p1, 0, 0, 0, 0, 0, 0, n, endtime)])
          && m.th.pc == Done(ContestKey(key))
        else m.T == T && m.th.pc == Refuse(1013)
      case (None, b) =>
        if b != 0 then
          m.T == T.(contests := T.contests + [Contest(u, 0, req.p1, 0, 0, 0, 0, 0, 0, b, endtime)])
          && m.th.pc == Done(ContestKey(key))
        else m.T == T && m.th.pc == Refuse(1013)
  {
    Operations.ServedAlone(schema, T, req, junk);
    hide Operations.Finished, Begin, Stoi, FindUser, Operations.Authentic, QueryText.Accepted;
  }

  /** The server's own word list accepts the end time a contest gets when none is given. */
  lemma DefaultEndtimeIsAccepted(req: Request)
    requires req.p3 == ""
    ensures QueryText.Accepted(ReservedWords.RESERVED_WORDS, Endtime(req))
  {
    hide ReservedWords.RESERVED_WORDS, QueryText.Accepted;
    QueryText.NoCapitalsIsAccepted(Endtime(req));
  }

  // ---------- updateimage ----------

  /** At event `i` request `t` sends its UPDATE, and it does not fail. The contest and slot are the ones
      it asked for, the images the two it has stored, the user one of its name; and the UPDATE takes
      effect, or finds no contest. */
  ghost predicate SendsUpdateAt(schema: Schema, es: seq<Event>, t: nat, i: nat)
    requires i < |es|
  {
    SendsUpdate(Run(schema, es[..i]), es[i], t)
  }

  ghost predicate SendsUpdate(s: Sys, e: Event, t: nat) {
    && e.Send? && e.ok && e.t == t && s.Active(t) && s.threads[t].pc.SlotUpdate?
    && NextStatement(s.threads[t]) == UpdateSlot(Number(s.threads[t].req.p1), Number(s.threads[t].req.p3),
                                                 s.threads[t].pc.image, s.threads[t].pc.uid, s.threads[t].pc.thumb)
    && s.threads[t].made == [s.threads[t].pc.image, s.threads[t].pc.thumb]
    && NamedUser(s.T, s.threads[t].pc.uid, s.threads[t].req.username)
    && Step(s, e).T == Operations.Shown(s.T, Number(s.threads[t].req.p1), Number(s.threads[t].req.p3),
                                        s.threads[t].pc.uid, s.threads[t].pc.image, s.threads[t].pc.thumb)
  }

  /** Two image rows of its own with its own two texts. */
  ghost predicate BothStored(T: Tables, th: Thread) {
    && |th.made| == 2 && th.made[0] != th.made[1]
    && OwnImage(T, th.made[0], th.req.username, th.req.p2) && OwnImage(T, th.made[1], th.req.username, th.req.p4)
  }

  predicate Told1011(th: Thread) {
    th.req.requestid == "updateimage" && th.pc == Refuse(1011)
  }

  lemma OnlyUpdateTells1011(schema: Schema, th: Thread, r: Result, junk: Sight)
    requires Resume(schema, th, r, junk) == Refuse(1011) && !th.pc.Done?
    ensures th.pc.SlotUpdate? && r.Success?
  {
    hide MayUpdate;
    if th.pc.Login? {
      AfterLoginIsNot1011(schema, th);
      hide AfterLogin;
    }
  }

  lemma AfterLoginIsNot1011(schema: Schema, th: Thread)
    ensures AfterLogin(schema, th) != Refuse(1011)
  {
    if th.kind.CreateContest? && ParameterFault(th.kind, th.req) == 0 {
      assert AfterLogin(schema, th) == ContestStart(schema, th.req);
    }
  }

  lemma FailedIsNotSuccess(schema: Schema, T: Tables, last: int, st: Statement)
    ensures !Execute(schema, T, last, st, false).result.Success?
  {
  }

  lemma OwnEventTells(s: Sys, e: Event, t: nat)
    requires Good(s) && e.Send? && e.t == t && s.Active(t) && FieldsKept(s.threads[t])
    requires Told1011(Step(s, e).threads[t])
    ensures BothStored(Step(s, e).T, Step(s, e).threads[t]) && SendsUpdate(s, e, t)
  {
    var l := s.View(t);
    assert GoodThread(l.T, l.last, l.th);
    StepGrows(s, e);
    assert Step(s, e).T == LocalStep(s.schema, l, e.ok, e.junk).T;
    assert Step(s, e).threads[t] == LocalStep(s.schema, l, e.ok, e.junk).th;
    hide LocalStep, GoodThread, Good, FieldsKept, Step, Operations.Shown, NextStatement, Number;
    OwnStepTells(s.schema, l, e.ok, e.junk);
    StoredStays(s.T, Step(s, e).T, s.threads[t]);
    SameStored(Step(s, e).T, s.threads[t], Step(s, e).threads[t]);
  }

  lemma SameStored(T: Tables, th: Thread, th': Thread)
    requires th'.made == th.made && th'.req == th.req
    ensures BothStored(T, th') <==> BothStored(T, th)
  {
  }

  lemma OtherEventTells(s: Sys, e: Event, t: nat)
    requires t in s.threads && !(e.Send? && e.t == t && s.Active(t))
    ensures t in Step(s, e).threads && Step(s, e).threads[t] == s.threads[t]
    ensures BothStored(s.T, s.threads[t]) ==> BothStored(Step(s, e).T, s.threads[t])
  {
    StepGrows(s, e);
    hide LocalStep, Begin;
    StoredStays(s.T, Step(s, e).T, s.threads[t]);
    hide BothStored;
  }

  lemma ArrivalTells(s: Sys, e: Event, t: nat)
    requires t !in s.threads && t in Step(s, e).threads
    ensures !Told1011(Step(s, e).threads[t])
  {
    if e.Arrive? {
      BeginIsNotTold(s.schema, e.req);
    }
    hide LocalStep, Begin, Told1011;
  }

  lemma StepTells1011(s: Sys, e: Event, t: nat)
    requires Good(s) && t in Step(s, e).threads && Told1011(Step(s, e).threads[t])
    requires t in s.threads ==> FieldsKept(s.threads[t])
    requires t in s.threads && Told1011(s.threads[t]) ==> BothStored(s.T, s.threads[t])
    ensures BothStored(Step(s, e).T, Step(s, e).threads[t])
    ensures (t in s.threads && Told1011(s.threads[t])) || SendsUpdate(s, e, t)
  {
    hide Step, Good, FieldsKept, BothStored, SendsUpdate, Told1011;
    if t !in s.threads {
      ArrivalTells(s, e, t);
      assert false;
    } else if e.Send? && e.t == t && s.Active(t) {
      OwnEventTells(s, e, t);
    } else {
      OtherEventTells(s, e, t);
    }
  }

  lemma StoredStays(T: Tables, U: Tables, th: Thread)
    requires Grows(T, U)
    ensures BothStored(T, th) ==> BothStored(U, th)
  {
    if BothStored(T, th) {
      OwnImageStable(T, U, th.made[0], th.req.username, th.req.p2);
      OwnImageStable(T, U, th.made[1], th.req.username, th.req.p4);
    }
  }

  lemma BeginIsNotTold(schema: Schema, req: Request)
    ensures !Told1011(Begin(schema, req))
  {
    hide Number, QueryText.Accepted;
  }

  /** The statement after which a request is told 1011 is its UPDATE, with its two images stored. */
  lemma OwnStepTells(schema: Schema, l: Local, ok: bool, junk: Sight)
    requires GoodThread(l.T, l.last, l.th) && FieldsKept(l.th) && !l.th.pc.Done?
    requires Told1011(LocalStep(schema, l, ok, junk).th)
    ensures l.th.pc.SlotUpdate? && ok && BothStored(l.T, l.th)
    ensures LocalStep(schema, l, ok, junk).th.made == l.th.made == [l.th.pc.image, l.th.pc.thumb]
    ensures LocalStep(schema, l, ok, junk).th.req == l.th.req && NamedUser(l.T, l.th.pc.uid, l.th.req.username)
    ensures NextStatement(l.th) == UpdateSlot(Number(l.th.req.p1), Number(l.th.req.p3), l.th.pc.image, l.th.pc.uid,
                                              l.th.pc.thumb)
    ensures LocalStep(schema, l, ok, junk).T == Operations.Shown(l.T, Number(l.th.req.p1), Number(l.th.req.p3),
                                                                 l.th.pc.uid, l.th.pc.image, l.th.pc.thumb)
  {
    OnlyUpdateTells1011(schema, l.th, Execute(schema, l.T, l.last, NextStatement(l.th), ok).result, junk);
    FailedIsNotSuccess(schema, l.T, l.last, NextStatement(l.th));
    KindOfThread(l.T, l.last, l.th);
    UpdateKind(l.th.kind, l.th.pc, l.th.req.requestid);
    Operations.ShowStep(schema, l, junk);
    hide Resume, Execute, Number, KindFits, KindOf, OwnImage, Operations.Shown;
  }

  ghost predicate UpdateSent(schema: Schema, es: seq<Event>, t: nat) {
    exists i :: 0 <= i < |es| && SendsUpdateAt(schema, es, t, i)
  }

  lemma UpdateSentSnoc(schema: Schema, es: seq<Event>, e: Event, t: nat)
    ensures UpdateSent(schema, es, t) || SendsUpdate(Run(schema, es), e, t) ==> UpdateSent(schema, es + [e], t)
  {
    var more := es + [e];
    hide SendsUpdate, Run;
    forall i | 0 <= i < |es|
      ensures SendsUpdateAt(schema, more, t, i) <==> SendsUpdateAt(schema, es, t, i)
    {
      assert more[..i] == es[..i];
    }
    assert more[..|es|] == es;
    assert SendsUpdateAt(schema, more, t, |es|) <==> SendsUpdate(Run(schema, es), e, t);
    hide SendsUpdateAt;
  }

  ghost predicate TellsTruth(schema: Schema, es: seq<Event>, t: nat) {
    var s := Run(schema, es);
    t in s.threads && Told1011(s.threads[t]) ==> BothStored(s.T, s.threads[t]) && UpdateSent(schema, es, t)
  }

  lemma TellsTruthOn(schema: Schema, ds: seq<Event>, e: Event, t: nat)
    requires Good(Run(schema, ds)) && TellsTruth(schema, ds, t)
    requires var s := Run(schema, ds); t in s.threads ==> FieldsKept(s.threads[t])
    ensures TellsTruth(schema, ds + [e], t)
  {
    RunSnoc(Init(schema), ds, e);
    var s := Run(schema, ds);
    assert Run(schema, ds + [e]) == Step(s, e);
    UpdateSentSnoc(schema, ds, e, t);
    hide Run, Step, Good, Told1011, BothStored, SendsUpdate, FieldsKept, UpdateSent;
    if t in Step(s, e).threads && Told1011(Step(s, e).threads[t]) {
      StepTells1011(s, e, t);
    }
  }

  /** In every run: an updateimage request that was told 1011 has stored exactly its two images, and at
      some event has sent its UPDATE, of the contest and slot it asked for, without failure. */
  lemma {:induction false} Told1011Means(schema: Schema, es: seq<Event>, t: nat)
    ensures TellsTruth(schema, es, t)
  {
    if es != [] {
      var ds, e := es[..|es| - 1], es[|es| - 1];
      assert es == ds + [e];
      Told1011Means(schema, ds, t);
      RunGood(schema, ds);
      RunKeepsFields(schema, ds, t);
      hide TellsTruth, Good, FieldsKept, Run;
      TellsTruthOn(schema, ds, e, t);
    }
  }

  /** A refused update: when the formula fails on the contest's row as it is read, or on leftovers when
      there is none, the request is told 1000; otherwise it goes on. No table changes either way. */
  lemma CheckDecides(s: Sys, t: nat, junk: Sight)
    requires s.Active(t) && s.threads[t].pc.ImageSight?
    ensures var s', th := Step(s, Send(t, true, junk)), s.threads[t];
      var sight := Slots.SightRead(s.T, th.contest, junk);
      && s'.T == s.T
      && s'.threads[t].pc == if Operations.Allowed(th.slot, th.pc.uid, sight) then ImageOwner(th.pc.uid, sight)
                             else Refuse(1000)
  {
    Operations.SightStep(s.schema, s.View(t), junk);
    hide LocalStep, Operations.Allowed, Slots.SightRead;
  }

  // ---------- the friend lists ----------

  lemma OnlyRowsTellNames(schema: Schema, th: Thread, r: Result, junk: Sight)
    requires !th.pc.Done? && Resume(schema, th, r, junk).Done? && Resume(schema, th, r, junk).answer.Names?
    ensures th.pc.ListRows? && r.People?
  {
    hide AfterLogin, MayUpdate, ScoresOf, UserId, KeyOf, Stoi;
    if th.pc.Login? {
      AfterLoginGoesTo(schema, th);
    }
  }

  lemma FailedIsNotPeople(schema: Schema, T: Tables, last: int, st: Statement)
    ensures Execute(schema, T, last, st, false).result == Failure
  {
  }

  lemma ListKinds(th: Thread)
    requires FieldsKept(th) && KindFits(th.kind, th.pc) && th.pc.ListRows?
    ensures th.req.requestid == if th.kind.MyFriends? then "getmyfriends" else "getfriendrequests"
  {
    hide Number;
  }

  /** In every run: when a request is answered with a list, its names are for "getmyfriends" exactly those
      with a row in both directions, for "getfriendrequests" exactly those whose row is not answered, as the
      friends table is when the list is read, and seen from the account found for the request's user. */
  lemma ListedMeans(schema: Schema, es: seq<Event>, t: nat, ok: bool, junk: Sight, b: int)
    requires var s, e := Run(schema, es), Send(t, ok, junk);
      && s.Active(t) && t in Step(s, e).threads && Step(s, e).threads[t].pc.Done?
      && Step(s, e).threads[t].pc.answer.Names?
    ensures var s := Run(schema, es);
      var th := s.threads[t];
      var ids := Step(s, Send(t, ok, junk)).threads[t].pc.answer.ids;
      && th.pc.ListRows? && NamedUser(s.T, th.pc.uid, th.req.username)
      && th.req.requestid in ["getmyfriends", "getfriendrequests"]
      && (b in ids <==> Edge(b, th.pc.uid) in s.T.friends
                        && (Edge(th.pc.uid, b) in s.T.friends <==> th.req.requestid == "getmyfriends"))
  {
    RunGood(schema, es);
    RunKeepsFields(schema, es, t);
    var s := Run(schema, es);
    assert GoodThread(s.T, s.last[t], s.threads[t]);
    assert Step(s, Send(t, ok, junk)).threads[t] == LocalStep(s.schema, s.View(t), ok, junk).th;
    hide Run, Step, LocalStep, Good, GoodThread, FieldsKept;
    ListStepMeans(s.schema, s.View(t), ok, junk, b);
  }

  lemma ListStepMeans(schema: Schema, l: Local, ok: bool, junk: Sight, b: int)
    requires GoodThread(l.T, l.last, l.th) && FieldsKept(l.th) && !l.th.pc.Done?
    requires var pc := LocalStep(schema, l, ok, junk).th.pc; pc.Done? && pc.answer.Names?
    ensures var ids := LocalStep(schema, l, ok, junk).th.pc.answer.ids;
      && l.th.pc.ListRows? && NamedUser(l.T, l.th.pc.uid, l.th.req.username)
      && l.th.req.requestid in ["getmyfriends", "getfriendrequests"]
      && (b in ids <==> Edge(b, l.th.pc.uid) in l.T.friends
                        && (Edge(l.th.pc.uid, b) in l.T.friends <==> l.th.req.requestid == "getmyfriends"))
  {
    NamesComeFromRows(schema, l, ok, junk);
    RowsAreKind(l.T, l.last, l.th);
    ListKinds(l.th);
    hide FieldsKept, GoodThread, LocalStep, Operations.FriendsOf, Operations.AskersOf;
    Operations.RowsStep(schema, l, junk);
    ListsContain(l.T.friends, l.th.pc.uid, b);
  }

  lemma NamesComeFromRows(schema: Schema, l: Local, ok: bool, junk: Sight)
    requires !l.th.pc.Done?
    requires var pc := LocalStep(schema, l, ok, junk).th.pc; pc.Done? && pc.answer.Names?
    ensures l.th.pc.ListRows? && ok
  {
    OnlyRowsTellNames(schema, l.th, Execute(schema, l.T, l.last, NextStatement(l.th), ok).result, junk);
    FailedIsNotPeople(schema, l.T, l.last, NextStatement(l.th));
    hide Resume, Execute, NextStatement;
  }

  lemma RowsAreKind(T: Tables, last: int, th: Thread)
    requires GoodThread(T, last, th) && th.pc.ListRows?
    ensures KindFits(th.kind, th.pc) && NamedUser(T, th.pc.uid, th.req.username)
  {
  }

  lemma ListsContain(rows: seq<Edge>, a: int, b: int)
    ensures b in Operations.FriendsOf(rows, a) <==> Edge(b, a) in rows && Edge(a, b) in rows
    ensures b in Operations.AskersOf(rows, a) <==> Edge(b, a) in rows && Edge(a, b) !in rows
  {
    Operations.ListsMean(rows, a);
    MutualFriendsMeaning(rows, a, b);
    RequestersMeaning(rows, a, b);
    hide MutualFriends, Requesters, Operations.FriendsOf, Operations.AskersOf;
  }

  /** So in every run a list says what was asked and deleted until it was read: b is among a's friends
      exactly when both directions were asked for after their last deletion, and among those asking a
      exactly when b's was and a's was not. */
  lemma ListedIsHistory(schema: Schema, es: seq<Event>, t: nat, ok: bool, junk: Sight, b: int)
    requires var s, e := Run(schema, es), Send(t, ok, junk);
      && s.Active(t) && t in Step(s, e).threads && Step(s, e).threads[t].pc.Done?
      && Step(s, e).threads[t].pc.answer.Names?
    ensures var s := Run(schema, es);
      && s.threads[t].pc.ListRows?
      && var a := s.threads[t].pc.uid;
         var ids := Step(s, Send(t, ok, junk)).threads[t].pc.answer.ids;
         b in ids <==>
           && Friendship.AskedSinceDeleted(Friendship.Marks(Init(schema), es, b, a))
           && (Friendship.AskedSinceDeleted(Friendship.Marks(Init(schema), es, a, b)) <==>
               s.threads[t].req.requestid == "getmyfriends")
  {
    ListedMeans(schema, es, t, ok, junk, b);
    var a := Run(schema, es).threads[t].pc.uid;
    Friendship.RowIsHistory(schema, es, a, b);
    Friendship.RowIsHistory(schema, es, b, a);
    hide Run, Step, Friendship.AskedSinceDeleted, Friendship.Marks;
  }

  /** And after any serial run without failures: a "getmyfriends" request served next is answered with
      exactly those who added, and were added by, its user since the last removal between the two. */
  lemma ListedInSerialRuns(schema: Schema, reqs: seq<Request>, req: Request, b: int, junk: Sight)
    requires var T := SerialRuns.ServeAll(schema, reqs);
      && req.requestid == "getmyfriends" && Operations.Authentic(schema, T, req) && FindUser(T.users, req.username) != 0
    ensures var T := SerialRuns.ServeAll(schema, reqs);
      var m := Operations.Finished(schema, Local(T, 0, Begin(schema, req)), junk);
      var a, ops := FindUser(T.users, req.username), Friendship.AllAsked(schema, reqs);
      && m.T == T && m.th.pc.Done? && m.th.pc.answer.Names?
      && (b in m.th.pc.answer.ids <==>
          Friendship.AddedSinceRemoved(ops, a, b) && Friendship.AddedSinceRemoved(ops, b, a))
  {
    var T := SerialRuns.ServeAll(schema, reqs);
    var a := FindUser(T.users, req.username);
    Operations.ServedAlone(schema, T, req, junk);
    Friendship.FriendshipInSerialRuns(schema, reqs, a, b);
    Operations.ListsMean(T.friends, a);
    hide Operations.Finished, Begin, FindUser, Operations.Authentic, SerialRuns.ServeAll, MutualFriends, Requesters;
    hide Operations.FriendsOf, Operations.AskersOf, Friendship.AddedSinceRemoved, Friendship.AllAsked;
  }

  // ---------- getimage ----------

  /** A well-formed request for the photo in slot `k` of contest `c`. */
  predicate AsksPhoto(schema: Schema, req: Request, c: int, k: int) {
    && req.requestid == "getimage" && req.p1 != "" && req.p2 != ""
    && Stoi(req.p1) == Some(c) && Stoi(req.p2) == Some(k) && c != 0 && (k == 1 || k == 2)
    && QueryText.Accepted(schema.reserved, req.username) && QueryText.Accepted(schema.reserved, req.password)
  }

  /** Served alone it is answered with the text the slot shows, and changes no table. */
  lemma PhotoIsShown(schema: Schema, T: Tables, req: Request, c: int, k: int, text: string, junk: Sight)
    requires AsksPhoto(schema, req, c, k) && Operations.Authentic(schema, T, req) && Pictures.Shows(T, c, k, text)
    ensures var m := Operations.Finished(schema, Local(T, 0, Begin(schema, req)), junk);
      m.T == T && m.th.pc == Done(Picture(text))
  {
    Operations.ServedAlone(schema, T, req, junk);
    hide Operations.Finished, Begin, Stoi, Operations.Authentic, QueryText.Accepted, FindUser;
  }

  lemma PhotoBegins(schema: Schema, req: Request, c: int, k: int)
    requires AsksPhoto(schema, req, c, k)
    ensures var th := Begin(schema, req);
      && th.pc == Login && th.req == req && th.contest == c && th.slot == k
      && AfterLogin(schema, th) == PictureId && Admissible(req)
  {
    PhotoKind(req.requestid);
    hide Stoi, QueryText.Accepted, Begin, KindOf, AfterLogin;
    Operations.BeginsAtGate(schema, req);
    PhotoAfterLogin(schema, Begin(schema, req));
  }

  lemma PhotoKind(requestid: string)
    requires requestid == "getimage"
    ensures KindOf(requestid) == GetImage && requestid != "createuser"
  {
  }

  lemma PhotoAfterLogin(schema: Schema, th: Thread)
    requires th.kind.GetImage? && th.req.p1 != "" && th.req.p2 != "" && Stoi(th.req.p1).Some? && Stoi(th.req.p2).Some?
    requires th.contest != 0 && (th.slot == 1 || th.slot == 2)
    ensures AfterLogin(schema, th) == PictureId
  {
    hide Stoi, ContestStart, QueryText.Accepted;
  }

  /** In every interleaving such a request, once its login succeeds, is before its first SELECT, for just
      that contest and slot, whatever others send before and after the login. */
  lemma ReaderReaches(s: Sys, r: nat, req: Request, c: int, k: int, fs: seq<Event>, gs: seq<Event>, junk: Sight)
    requires r !in s.threads && AsksPhoto(s.schema, req, c, k)
    requires (forall e <- fs :: e.t != r) && (forall e <- gs :: e.t != r)
    requires Operations.Authentic(s.schema, RunFrom(Step(s, Arrive(r, req)), fs).T, req)
    ensures var s' := RunFrom(Step(RunFrom(Step(s, Arrive(r, req)), fs), Send(r, true, junk)), gs);
      s'.Active(r) && s'.threads[r].pc.PictureId? && s'.threads[r].contest == c && s'.threads[r].slot == k
  {
    PhotoBegins(s.schema, req, c, k);
    var s1 := Step(s, Arrive(r, req));
    assert r in s1.threads && r in s1.last && s1.threads[r] == Begin(s.schema, req) && s1.schema == s.schema;
    hide Begin, Admissible, AsksPhoto;
    OthersLeaveThread(s1, fs, r);
    var s2 := RunFrom(s1, fs);
    Operations.GateStep(s2.schema, s2.View(r), junk);
    Operations.AfterLoginIgnoresPc(s2.schema, s2.threads[r], Login);
    var s3 := Step(s2, Send(r, true, junk));
    assert r in s3.threads && r in s3.last && s3.threads[r] == LocalStep(s2.schema, s2.View(r), true, junk).th;
    hide Step, LocalStep, RunFrom, AfterLogin;
    OthersLeaveThread(s3, gs, r);
  }

  /** All that lies between an UPDATE and the first SELECT of a reader that arrives after it. */
  function ReaderArrives(r: nat, req: Request, before: seq<Event>, fs: seq<Event>, gs: seq<Event>,
                         junk: Sight): seq<Event> {
    before + [Arrive(r, req)] + fs + [Send(r, true, junk)] + gs
  }

  /** Read-back from request to request: an update of an existing contest has been sent, a request for the
      contest and slot that update asked for arrives, logs in and reads before the slot is set again; it is
      answered with exactly the text the update gave, whatever else is sent in any of the gaps. */
  lemma AskedPhotoReadsBack(schema: Schema, es: seq<Event>, t: nat, junk: Sight, before: seq<Event>,
                            r: nat, req: Request, fs: seq<Event>, gs: seq<Event>, hs: seq<Event>)
    requires var s := Run(schema, es);
      && s.Active(t) && s.threads[t].pc.SlotUpdate? && s.T.IsContest(s.threads[t].contest)
      && AsksPhoto(schema, req, Number(s.threads[t].req.p1), Number(s.threads[t].req.p3))
    requires var s1 := Step(Run(schema, es), Send(t, true, junk));
      && Pictures.NeverSet(s1, ReaderArrives(r, req, before, fs, gs, junk), Number(Run(schema, es).threads[t].req.p1),
                           Number(Run(schema, es).threads[t].req.p3))
      && r !in RunFrom(s1, before).threads
      && Operations.Authentic(schema, RunFrom(Step(RunFrom(s1, before), Arrive(r, req)), fs).T, req)
    requires (forall e <- fs :: e.t != r) && (forall e <- gs :: e.t != r) && (forall e <- hs :: e.t != r)
    ensures var s1 := Step(Run(schema, es), Send(t, true, junk));
      var s2 := Step(RunFrom(s1, ReaderArrives(r, req, before, fs, gs, junk)), Send(r, true, junk));
      var s3 := Step(RunFrom(s2, hs), Send(r, true, junk));
      r in s3.threads && s3.threads[r].pc == Done(Picture(Run(schema, es).threads[t].req.p2))
  {
    RunGood(schema, es);
    RunKeepsFields(schema, es, t);
    RunFromKeepsSchema(Init(schema), es);
    var s := Run(schema, es);
    UpdateFields(s, t);
    var s1 := Step(s, Send(t, true, junk));
    StepKeepsSchema(s, Send(t, true, junk));
    RunFromKeepsSchema(s1, before);
    hide Run, Step, Good, FieldsKept, AsksPhoto, Operations.Authentic, Pictures.NeverSet, Number, RunFrom;
    var s0 := RunFrom(s1, before);
    ReaderReaches(s0, r, req, s.threads[t].contest, s.threads[t].slot, fs, gs, junk);
    RunReaderArrives(s1, r, req, before, fs, gs, junk);
    hide ReaderArrives;
    Pictures.ImageReadsBack(s, t, ReaderArrives(r, req, before, fs, gs, junk), r, hs, junk);
  }

  lemma UpdateKind(kind: Kind, pc: Pc, requestid: string)
    requires KindFits(kind, pc) && pc.SlotUpdate? && kind == KindOf(requestid)
    ensures requestid == "updateimage"
  {
  }

  lemma KindOfThread(T: Tables, last: int, th: Thread)
    requires GoodThread(T, last, th)
    ensures KindFits(th.kind, th.pc)
  {
  }

  lemma UpdateFields(s: Sys, t: nat)
    requires Good(s) && t in s.threads && s.threads[t].pc.SlotUpdate? && FieldsKept(s.threads[t])
    ensures s.threads[t].contest == Number(s.threads[t].req.p1) && s.threads[t].slot == Number(s.threads[t].req.p3)
  {
    hide GoodThread, KindFits, KindOf, Number;
    KindOfThread(s.T, s.last[t], s.threads[t]);
    UpdateKind(s.threads[t].kind, s.threads[t].pc, s.threads[t].req.requestid);
  }

  lemma StepKeepsSchema(s: Sys, e: Event)
    ensures Step(s, e).schema == s.schema
  {
    hide LocalStep, Begin;
  }

  lemma {:induction false} RunFromKeepsSchema(s: Sys, es: seq<Event>)
    ensures RunFrom(s, es).schema == s.schema
  {
    if es != [] {
      RunFromKeepsSchema(s, es[..|es| - 1]);
      StepKeepsSchema(RunFrom(s, es[..|es| - 1]), es[|es| - 1]);
    }
  }

  lemma RunReaderArrives(s: Sys, r: nat, req: Request, before: seq<Event>, fs: seq<Event>, gs: seq<Event>, junk: Sight)
    ensures RunFrom(s, ReaderArrives(r, req, before, fs, gs, junk)) ==
            RunFrom(Step(RunFrom(Step(RunFrom(s, before), Arrive(r, req)), fs), Send(r, true, junk)), gs)
  {
    hide Step;
    var a, e := Arrive(r, req), Send(r, true, junk);
    RunSnoc(s, before, a);
    RunAppend(s, before + [a], fs);
    RunSnoc(s, before + [a] + fs, e);
    RunAppend(s, before + [a] + fs + [e], gs);
  }
}
