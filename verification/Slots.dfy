/** Who holds the slots of a contest, over every interleaving (source/srv_db.cpp:525-659). */
module Slots {
  import opened Text
  import opened Tables
  import opened Requests
  import opened Integrity
  import QueryText

  function SlotUser(T: Tables, c: int, slot: int): int {
    if !T.IsContest(c) then 0
    else if slot == 1 then T.ContestRow(c).user1 else T.ContestRow(c).user2
  }

  /** A contest whose creator named one other user to compete with. */
  predicate NamedContest(T: Tables, c: int) {
    T.IsContest(c) && T.ContestRow(c).permissions > 0
  }

  /** The user an updateImage request has resolved for itself, once it is past its permission check;
      0 for any other request. */
  function UpdatingUser(pc: Pc): int {
    match pc
    case ImageOwner(uid, _) => uid
    case ImageInsert(uid, _, _) => uid
    case ImageLastId(uid, _) => uid
    case ThumbOwner(uid, _, _) => uid
    case ThumbInsert(uid, _, _, _) => uid
    case ThumbLastId(uid, _, _) => uid
    case SlotUpdate(uid, _, _, _) => uid
    case _ => 0
  }

  ghost predicate Heading(th: Thread, c: int, slot: int) {
    UpdatingUser(th.pc) != 0 && th.contest == c && th.slot == slot
  }

  /** Every request about to set this slot would set it to the user who has it. */
  ghost predicate Settled(s: Sys, c: int, slot: int) {
    forall t :: t in s.threads && Heading(s.threads[t], c, slot) ==>
      UpdatingUser(s.threads[t].pc) == SlotUser(s.T, c, slot)
  }

  /** The check of updateImage comes down to this: the last two of its arms never decide, and an
      empty slot is open to anyone. */
  lemma SlotCheckMeaning(slot: int, uid: int, sight: Sight)
    ensures MayUpdate(slot, uid, sight) <==>
            && sight.permissions != -2
            && (|| sight.permissions == 0 || sight.permissions == -1
                || (slot == 1 && (sight.user1 == 0 || sight.user1 == uid))
                || (slot == 2 && (sight.user2 == 0 || sight.user2 == uid)))
  {
  }

  // ---------- a settled slot stays settled ----------

  /** A statement leaves the user of a slot alone, unless it is the UPDATE of that slot. */
  lemma StatementKeepsSlot(schema: Schema, l: Local, ok: bool, junk: Sight, c: int, slot: int)
    requires slot == 1 || slot == 2
    requires l.T.IsContest(c)
    ensures var user := SlotUser(LocalStep(schema, l, ok, junk).T, c, slot);
      || user == SlotUser(l.T, c, slot)
      || (l.th.pc.SlotUpdate? && Heading(l.th, c, slot) && user == UpdatingUser(l.th.pc))
      || (l.th.pc.SlotUpdate? && l.th.slot != 1 && l.th.slot != 2)
      || (l.th.pc.SlotUpdate? && l.th.pc.uid == 0)
  {
    LocalStepGrows(schema, l, ok, junk);
    ContestRowAfter(schema, l, ok, junk, c);
    hide LocalStep;
  }

  /** A request sets out to update a slot of an existing named contest only for the user who holds
      it, if anyone does. */
  lemma SettingOutIsChecked(schema: Schema, l: Local, ok: bool, junk: Sight, c: int, slot: int)
    requires slot == 1 || slot == 2
    requires NamedContest(l.T, c) && SlotUser(l.T, c, slot) != 0
    ensures var m := LocalStep(schema, l, ok, junk);
      Heading(m.th, c, slot) ==>
        UpdatingUser(m.th.pc) == SlotUser(l.T, c, slot)
        || (Heading(l.th, c, slot) && UpdatingUser(m.th.pc) == UpdatingUser(l.th.pc))
  {
    if l.th.pc.ImageSight? {
      SettingOutFromSight(schema, l, ok, junk, c, slot);
    } else if UpdatingUser(l.th.pc) == 0 {
      hide Execute;
      NotUpdating(schema, l.th, Execute(schema, l.T, l.last, NextStatement(l.th), ok).result, junk);
    }
  }

  lemma SettingOutFromSight(schema: Schema, l: Local, ok: bool, junk: Sight, c: int, slot: int)
    requires slot == 1 || slot == 2
    requires NamedContest(l.T, c) && SlotUser(l.T, c, slot) != 0 && l.th.pc.ImageSight?
    ensures var m := LocalStep(schema, l, ok, junk);
      Heading(m.th, c, slot) ==> UpdatingUser(m.th.pc) == SlotUser(l.T, c, slot)
  {
  }

  lemma NotUpdating(schema: Schema, th: Thread, r: Result, junk: Sight)
    requires UpdatingUser(th.pc) == 0 && !th.pc.ImageSight?
    ensures UpdatingUser(Resume(schema, th, r, junk)) == 0
  {
    if th.pc.Login? {
      AfterLoginGoesTo(schema, th);
      hide AfterLogin, MayUpdate;
    } else {
      hide AfterLogin, MayUpdate, UserId, KeyOf, ScoresOf;
    }
  }

  lemma BeginsElsewhere(schema: Schema, req: Request)
    ensures UpdatingUser(Begin(schema, req).pc) == 0
  {
  }

  lemma PutKeepsSettled(s: Sys, t: nat, l: Local, c: int, slot: int)
    requires Settled(s, c, slot)
    requires SlotUser(l.T, c, slot) == SlotUser(s.T, c, slot)
    requires Heading(l.th, c, slot) ==> UpdatingUser(l.th.pc) == SlotUser(s.T, c, slot)
    ensures Settled(s.Put(t, l), c, slot)
  {
    hide UpdatingUser, SlotUser;
  }

  lemma SendKeepsSettled(s: Sys, e: Event, c: int, slot: int)
    requires Good(s) && (slot == 1 || slot == 2) && e.Send? && s.Active(e.t)
    requires NamedContest(s.T, c) && SlotUser(s.T, c, slot) != 0 && Settled(s, c, slot)
    ensures Settled(Step(s, e), c, slot) && SlotUser(Step(s, e).T, c, slot) == SlotUser(s.T, c, slot)
  {
    hide LocalStep, SlotUser;
    var l := s.View(e.t);
    assert GoodThread(l.T, l.last, l.th);
    if l.th.pc.SlotUpdate? {
      UpdaterIsUser(l.T, l.last, l.th);
    }
    hide Good, GoodThread;
    StatementKeepsSlot(s.schema, l, e.ok, e.junk, c, slot);
    SettingOutIsChecked(s.schema, l, e.ok, e.junk, c, slot);
    PutKeepsSettled(s, e.t, LocalStep(s.schema, l, e.ok, e.junk), c, slot);
  }

  lemma UpdaterIsUser(T: Tables, last: int, th: Thread)
    requires GoodThread(T, last, th) && th.pc.SlotUpdate?
    ensures th.pc.uid != 0 && (th.slot == 1 || th.slot == 2)
  {
  }

  lemma StepKeepsSettled(s: Sys, e: Event, c: int, slot: int)
    requires Good(s) && (slot == 1 || slot == 2)
    requires NamedContest(s.T, c) && SlotUser(s.T, c, slot) != 0 && Settled(s, c, slot)
    ensures var s' := Step(s, e);
      Settled(s', c, slot) && SlotUser(s'.T, c, slot) == SlotUser(s.T, c, slot) && NamedContest(s'.T, c)
  {
    StepGrows(s, e);
    hide LocalStep, Begin, SlotUser, Good;
    if e.Arrive? {
      if e.t !in s.threads && Admissible(e.req) {
        BeginsElsewhere(s.schema, e.req);
        PutKeepsSettled(s, e.t, Local(s.T, 0, Begin(s.schema, e.req)), c, slot);
      }
    } else if s.Active(e.t) {
      SendKeepsSettled(s, e, c, slot);
    }
  }

  lemma {:induction false} RunKeepsSettled(s: Sys, es: seq<Event>, c: int, slot: int)
    requires Good(s) && (slot == 1 || slot == 2)
    requires NamedContest(s.T, c) && SlotUser(s.T, c, slot) != 0 && Settled(s, c, slot)
    ensures var s' := RunFrom(s, es);
      Settled(s', c, slot) && SlotUser(s'.T, c, slot) == SlotUser(s.T, c, slot) && NamedContest(s'.T, c)
  {
    if es != [] {
      RunKeepsSettled(s, es[..|es| - 1], c, slot);
      RunFromGood(s, es[..|es| - 1]);
      StepKeepsSettled(RunFrom(s, es[..|es| - 1]), es[|es| - 1], c, slot);
    }
  }

  // ---------- an unsettled slot can change ----------

  /** Between these states only this request moved, and no account was added. */
  ghost predicate OnlyThis(s: Sys, s': Sys, t: nat) {
    && t in s'.threads && s'.threads == s.threads[t := s'.threads[t]]
    && s'.T.users == s.T.users && s'.schema == s.schema && Grows(s.T, s'.T)
  }

  lemma OnlyThisChains(s: Sys, s': Sys, s'': Sys, t: nat)
    requires OnlyThis(s, s', t) && OnlyThis(s', s'', t)
    ensures OnlyThis(s, s'', t)
  {
    GrowsTransitive(s.T, s'.T, s''.T);
  }

  /** An update in flight that is the same one: same request, slot, contest and user. */
  predicate SameUpdate(th: Thread, th': Thread) {
    && th'.req == th.req && th'.contest == th.contest && th'.slot == th.slot
    && UpdatingUser(th'.pc) == UpdatingUser(th.pc)
  }

  /** Before its UPDATE, a statement of an update in flight moves it on and touches no contest. */
  lemma UpdateAdvances(s: Sys, t: nat, junk: Sight)
    requires Good(s) && t in s.threads && (s.threads[t].slot == 1 || s.threads[t].slot == 2)
    requires UpdatingUser(s.threads[t].pc) != 0 && !s.threads[t].pc.SlotUpdate?
    ensures var s' := Step(s, Send(t, true, junk));
      && OnlyThis(s, s', t) && s'.T.contests == s.T.contests && SameUpdate(s.threads[t], s'.threads[t])
      && StepsLeft(s'.threads[t].pc) < StepsLeft(s.threads[t].pc)
  {
    var l := s.View(t);
    assert GoodThread(l.T, l.last, l.th);
    LocalStepGrows(s.schema, l, true, junk);
    UpdateKeepsUsers(s.schema, l, junk);
    EachStatementCountsDown(s.schema, l, true, junk);
    UpdateGoesOn(s.schema, l, junk);
    hide LocalStep, GoodThread, UpdatingUser, StepsLeft;
  }

  /** A request past its check, left to run without failures, gets to its UPDATE. */
  lemma {:induction false} UpdateReaches(s: Sys, t: nat) returns (es: seq<Event>)
    requires Good(s) && t in s.threads && (s.threads[t].slot == 1 || s.threads[t].slot == 2)
    requires UpdatingUser(s.threads[t].pc) != 0
    ensures var s' := RunFrom(s, es);
      && Good(s') && OnlyThis(s, s', t) && s'.T.contests == s.T.contests
      && SameUpdate(s.threads[t], s'.threads[t]) && s'.threads[t].pc.SlotUpdate?
    ensures forall e <- es :: e.Send? && e.t == t
    decreases StepsLeft(s.threads[t].pc)
  {
    if s.threads[t].pc.SlotUpdate? {
      es := [];
    } else {
      var e := Send(t, true, Sight(false, 0, 0, 0));
      var s' := Step(s, e);
      StepGood(s, e);
      UpdateAdvances(s, t, e.junk);
      RunOfOne(s, e);
      hide Step, Good, UpdatingUser, StepsLeft;
      var rest := UpdateReaches(s', t);
      RunAppend(s, [e], rest);
      es := [e] + rest;
      OnlyThisChains(s, s', RunFrom(s', rest), t);
    }
  }

  /** Its UPDATE is answered 1011 and, when the contest exists, writes its user into the slot. */
  lemma UpdateFinishes(s: Sys, t: nat, junk: Sight)
    requires Good(s) && t in s.threads && s.threads[t].pc.SlotUpdate?
    ensures var s', th := Step(s, Send(t, true, junk)), s.threads[t];
      && OnlyThis(s, s', t) && s'.threads[t].pc == Refuse(1011)
      && (s.T.IsContest(th.contest) ==> SlotUser(s'.T, th.contest, th.slot) == th.pc.uid)
      && (!s.T.IsContest(th.contest) ==> s'.T == s.T)
  {
    var l := s.View(t);
    assert GoodThread(l.T, l.last, l.th);
    LocalStepGrows(s.schema, l, true, junk);
    SlotIsWritten(s.schema, l, junk);
    hide LocalStep, GoodThread;
  }

  /** So a request past its check, left to run without failures, writes its user into the slot. */
  lemma UpdateLands(s: Sys, t: nat, c: int, slot: int) returns (es: seq<Event>)
    requires Good(s) && t in s.threads && (slot == 1 || slot == 2)
    requires s.T.IsContest(c) && Heading(s.threads[t], c, slot)
    ensures var s' := RunFrom(s, es);
      && SlotUser(s'.T, c, slot) == UpdatingUser(s.threads[t].pc)
      && OnlyThis(s, s', t) && s'.threads[t].pc.Done?
    ensures forall e <- es :: e.Send? && e.t == t
  {
    var first := UpdateReaches(s, t);
    var s1, e := RunFrom(s, first), Send(t, true, Sight(false, 0, 0, 0));
    UpdateFinishes(s1, t, e.junk);
    RunSnoc(s, first, e);
    hide Step, Good, SlotUser;
    OnlyThisChains(s, s1, Step(s1, e), t);
    es := first + [e];
  }

  lemma SlotIsWritten(schema: Schema, l: Local, junk: Sight)
    requires l.th.pc.SlotUpdate?
    ensures var m, c := LocalStep(schema, l, true, junk), l.th.contest;
      && m.th.pc == Refuse(1011) && m.T.users == l.T.users
      && (l.T.IsContest(c) ==> SlotUser(m.T, c, l.th.slot) == l.th.pc.uid)
      && (!l.T.IsContest(c) ==> m.T == l.T)
  {
  }

  lemma UpdateKeepsUsers(schema: Schema, l: Local, junk: Sight)
    requires UpdatingUser(l.th.pc) != 0 && !l.th.pc.SlotUpdate?
    ensures LocalStep(schema, l, true, junk).T.users == l.T.users
    ensures LocalStep(schema, l, true, junk).T.contests == l.T.contests
  {
  }

  lemma UpdateGoesOn(schema: Schema, l: Local, junk: Sight)
    requires GoodThread(l.T, l.last, l.th) && UpdatingUser(l.th.pc) != 0 && !l.th.pc.SlotUpdate?
    requires l.th.slot == 1 || l.th.slot == 2
    ensures SameUpdate(l.th, LocalStep(schema, l, true, junk).th)
  {
  }

  // ---------- theorems ----------

  /** The user in a taken slot of a named contest is there for good exactly when every request that
      has passed its check and is about to write that slot writes the same user. */
  lemma SlotIsSafeIffSettled(s: Sys, c: int, slot: int)
    requires Good(s) && (slot == 1 || slot == 2)
    requires NamedContest(s.T, c) && SlotUser(s.T, c, slot) != 0
    ensures Settled(s, c, slot) <==>
            forall es :: SlotUser(RunFrom(s, es).T, c, slot) == SlotUser(s.T, c, slot)
  {
    if Settled(s, c, slot) {
      forall es ensures SlotUser(RunFrom(s, es).T, c, slot) == SlotUser(s.T, c, slot) {
        RunKeepsSettled(s, es, c, slot);
      }
    } else {
      var t :| t in s.threads && Heading(s.threads[t], c, slot)
               && UpdatingUser(s.threads[t].pc) != SlotUser(s.T, c, slot);
      var es := UpdateLands(s, t, c, slot);
      assert SlotUser(RunFrom(s, es).T, c, slot) != SlotUser(s.T, c, slot);
    }
  }

  /** When no update of the slot is in flight, as between the requests of a serial run, its user
      stays whatever runs afterwards, serial or not. */
  lemma SlotIsSafeWhenQuiet(schema: Schema, es: seq<Event>, fs: seq<Event>, c: int, slot: int)
    requires slot == 1 || slot == 2
    requires var s := Run(schema, es);
      && NamedContest(s.T, c) && SlotUser(s.T, c, slot) != 0
      && forall t :: t in s.threads ==> !Heading(s.threads[t], c, slot)
    ensures SlotUser(Run(schema, es + fs).T, c, slot) == SlotUser(Run(schema, es).T, c, slot)
  {
    RunGood(schema, es);
    RunAppend(Init(schema), es, fs);
    RunKeepsSettled(Run(schema, es), fs, c, slot);
  }

  /** The creator of a named contest keeps slot 1 for ever if and only if, when the contest is stored,
      every update in flight for that slot of its id is the creator's own. */
  lemma CreatorKeepsSlotOne(schema: Schema, es: seq<Event>, t: nat, junk: Sight)
    requires var s := Run(schema, es); s.Active(t) && s.threads[t].pc.ContestInsert? && s.threads[t].pc.permission > 0
    ensures var s := Run(schema, es);
      var c, creator := |s.T.contests| + 1, s.threads[t].pc.uid;
      (forall u :: u in s.threads && Heading(s.threads[u], c, 1) ==> UpdatingUser(s.threads[u].pc) == creator)
      <==> (forall fs :: SlotUser(RunFrom(Step(s, Send(t, true, junk)), fs).T, c, 1) == creator)
  {
    var s, e := Run(schema, es), Send(t, true, junk);
    var c, creator := |s.T.contests| + 1, s.threads[t].pc.uid;
    RunGood(schema, es);
    StepGood(s, e);
    ContestAppears(s, t, junk);
    hide Run, Step, Good, Heading, UpdatingUser, SlotUser, NamedContest;
    SlotIsSafeIffSettled(Step(s, e), c, 1);
  }

  lemma ContestAppears(s: Sys, t: nat, junk: Sight)
    requires Good(s) && s.Active(t) && s.threads[t].pc.ContestInsert? && s.threads[t].pc.permission > 0
    ensures var s', c := Step(s, Send(t, true, junk)), |s.T.contests| + 1;
      && NamedContest(s'.T, c) && SlotUser(s'.T, c, 1) == s.threads[t].pc.uid != 0
      && (Settled(s', c, 1) <==>
          forall u :: u in s.threads && Heading(s.threads[u], c, 1) ==>
            UpdatingUser(s.threads[u].pc) == s.threads[t].pc.uid)
  {
    assert GoodThread(s.T, s.last[t], s.threads[t]);
    var s', c, th := Step(s, Send(t, true, junk)), |s.T.contests| + 1, s.threads[t];
    assert SlotUser(s'.T, c, 1) == th.pc.uid && NamedContest(s'.T, c);
    assert s'.threads == s.threads[t := s'.threads[t]] && UpdatingUser(s'.threads[t].pc) == 0 == UpdatingUser(th.pc);
    hide Step, LocalStep, GoodThread, SlotUser, NamedContest, Settled;
    SettledByOthers(s, s', t, c);
  }

  lemma SettledByOthers(s: Sys, s': Sys, t: nat, c: int)
    requires t in s.threads && t in s'.threads && s'.threads == s.threads[t := s'.threads[t]]
    requires !Heading(s.threads[t], c, 1) && !Heading(s'.threads[t], c, 1)
    ensures Settled(s', c, 1) <==>
            forall u :: u in s.threads && Heading(s.threads[u], c, 1) ==>
              UpdatingUser(s.threads[u].pc) == SlotUser(s'.T, c, 1)
  {
    hide Heading, UpdatingUser, SlotUser;
    assert forall u :: u in s.threads <==> u in s'.threads;
    assert forall u :: u in s.threads && u != t ==> s'.threads[u] == s.threads[u];
  }

  // ---------- a slot that changes back ----------

  /** The contest row as the check of updateImage reads it. */
  function SightOfRow(row: Contest): Sight {
    Sight(true, row.user1, row.user2, row.permissions)
  }

  /** An updateimage request that user `uid` makes for this slot, with a valid password. */
  predicate SlotRequest(schema: Schema, T: Tables, req: Request, uid: int, c: int, slot: int) {
    && KindOf(req.requestid).UpdateImage? && Admissible(req)
    && QueryText.Accepted(schema.reserved, req.username) && QueryText.Accepted(schema.reserved, req.password)
    && uid != 0 && FindUser(T.users, req.username) == uid && T.users[uid - 1].password == req.password
    && ParameterFault(UpdateImage, req) == 0
    && Number(req.p1) == c && Number(req.p3) == slot
  }

  lemma RequestBegins(schema: Schema, T: Tables, req: Request, uid: int, c: int, slot: int)
    requires SlotRequest(schema, T, req, uid, c, slot)
    ensures var th := Begin(schema, req);
      th.pc.Login? && th.req == req && th.kind.UpdateImage? && th.contest == c && th.slot == slot
  {
    hide QueryText.Accepted, Number, ParameterFault;
  }

  lemma RequestLogsIn(schema: Schema, l: Local, uid: int, c: int, slot: int, junk: Sight)
    requires SlotRequest(schema, l.T, l.th.req, uid, c, slot) && l.th.pc.Login? && l.th.kind.UpdateImage?
    ensures LocalStep(schema, l, true, junk) == l.(th := l.th.(pc := ImageUser))
  {
  }

  /** What the check of updateImage is made on: the contest's row, or leftovers when there is none. */
  function SightRead(T: Tables, c: int, junk: Sight): Sight {
    if T.IsContest(c) then SightOfRow(T.ContestRow(c)) else junk.(found := false)
  }

  lemma RequestIsChecked(schema: Schema, l: Local, uid: int, junk: Sight)
    requires l.th.pc.ImageUser? && FindUser(l.T.users, l.th.req.username) == uid != 0
    requires MayUpdate(l.th.slot, uid, SightRead(l.T, l.th.contest, junk))
    ensures var m := LocalStep(schema, LocalStep(schema, l, true, junk), true, junk);
      && !LocalStep(schema, l, true, junk).th.pc.Done?
      && m == l.(th := l.th.(pc := ImageOwner(uid, SightRead(l.T, l.th.contest, junk))))
  {
    assert LocalStep(schema, l, true, junk) == l.(th := l.th.(pc := ImageSight(uid)));
  }

  /** A request arrives and passes its slot check. */
  lemma SetsOut(s: Sys, t: nat, req: Request, uid: int, c: int, slot: int, junk: Sight) returns (es: seq<Event>)
    requires Good(s) && t !in s.threads
    requires SlotRequest(s.schema, s.T, req, uid, c, slot) && MayUpdate(slot, uid, SightRead(s.T, c, junk))
    ensures var s' := RunFrom(s, es);
      && Good(s') && OnlyThis(s, s', t) && s'.T == s.T
      && Heading(s'.threads[t], c, slot) && s'.threads[t].pc == ImageOwner(uid, SightRead(s.T, c, junk))
      && s'.threads[t].req == req
  {
    var l := Local(s.T, 0, Begin(s.schema, req));
    PassesCheck(s.schema, s.T, req, uid, c, slot, junk);
    AdmissibleRequest(s.schema, s.T, req, uid, c, slot);
    hide LocalStep, Begin, SlotRequest, MayUpdate, Admissible;
    var a, e := Arrive(t, req), Send(t, true, junk);
    es := [a, e, e, e];
    RunOfFour(s, a, e);
    RunFromGood(s, es);
    assert Step(s, a) == s.Put(t, l);
    hide Step, Good, RunFrom;
    var l1 := LocalStep(s.schema, l, true, junk);
    var l2 := LocalStep(s.schema, l1, true, junk);
    PutSends(s, t, l, junk);
    PutSends(s, t, l1, junk);
    PutSends(s, t, l2, junk);
    PutIsOnlyThis(s, t, LocalStep(s.schema, l2, true, junk));
    hide OnlyThis;
  }

  lemma PassesCheck(schema: Schema, T: Tables, req: Request, uid: int, c: int, slot: int, junk: Sight)
    requires SlotRequest(schema, T, req, uid, c, slot) && MayUpdate(slot, uid, SightRead(T, c, junk))
    ensures var l := Local(T, 0, Begin(schema, req));
      var l1 := LocalStep(schema, l, true, junk);
      var l2 := LocalStep(schema, l1, true, junk);
      && !l.th.pc.Done? && !l1.th.pc.Done? && !l2.th.pc.Done?
      && LocalStep(schema, l2, true, junk) == l.(th := l.th.(pc := ImageOwner(uid, SightRead(T, c, junk))))
      && Heading(LocalStep(schema, l2, true, junk).th, c, slot) && l.th.req == req
  {
    var l := Local(T, 0, Begin(schema, req));
    RequestBegins(schema, T, req, uid, c, slot);
    RequestLogsIn(schema, l, uid, c, slot, junk);
    RequestIsChecked(schema, LocalStep(schema, l, true, junk), uid, junk);
    hide LocalStep, Begin, MayUpdate, SightRead;
  }

  lemma PutSends(s: Sys, t: nat, l: Local, junk: Sight)
    requires !l.th.pc.Done?
    ensures Step(s.Put(t, l), Send(t, true, junk)) == s.Put(t, LocalStep(s.schema, l, true, junk))
  {
    hide LocalStep;
    assert s.Put(t, l).View(t) == l;
  }

  lemma PutIsOnlyThis(s: Sys, t: nat, l: Local)
    requires l.T == s.T
    ensures OnlyThis(s, s.Put(t, l), t)
  {
  }

  lemma AdmissibleRequest(schema: Schema, T: Tables, req: Request, uid: int, c: int, slot: int)
    requires SlotRequest(schema, T, req, uid, c, slot)
    ensures Admissible(req)
  {
  }

  lemma RunOfFour(s: Sys, a: Event, e: Event)
    ensures RunFrom(s, [a, e, e, e]) == Step(Step(Step(Step(s, a), e), e), e)
  {
    hide Step;
    RunSnoc(s, [], a);
    RunSnoc(s, [a], e);
    RunSnoc(s, [a, e], e);
    RunSnoc(s, [a, e, e], e);
    assert [] + [a] == [a] && [a] + [e] == [a, e] && [a, e] + [e] == [a, e, e] && [a, e, e] + [e] == [a, e, e, e];
  }

  /** An update in flight that read slot 2 as somebody's, not as empty. */
  predicate ReadAsTaken(pc: Pc) {
    match pc
    case ImageOwner(_, sight) => sight.user2 != 0
    case ImageInsert(_, sight, _) => sight.user2 != 0
    case ImageLastId(_, sight) => sight.user2 != 0
    case ThumbOwner(_, sight, _) => sight.user2 != 0
    case ThumbInsert(_, sight, _, _) => sight.user2 != 0
    case ThumbLastId(_, sight, _) => sight.user2 != 0
    case SlotUpdate(_, sight, _, _) => sight.user2 != 0
    case _ => true
  }

  lemma MayUpdateOwn(s: Sys, c: int, uid: int)
    requires Good(s) && s.T.IsContest(c) && (SlotUser(s.T, c, 2) == 0 || SlotUser(s.T, c, 2) == uid)
    ensures MayUpdate(2, uid, SightOfRow(s.T.ContestRow(c)))
  {
    assert GoodContest(s.T, s.T.ContestRow(c));
  }

  lemma SameUsersSameRequest(schema: Schema, T: Tables, U: Tables, req: Request, uid: int, c: int, slot: int)
    requires SlotRequest(schema, T, req, uid, c, slot) && U.users == T.users
    ensures SlotRequest(schema, U, req, uid, c, slot)
  {
  }

  /** Two users pass the check of the same empty slot, and the first one writes it. */
  lemma BothReadEmpty(s: Sys, t1: nat, t2: nat, ra: Request, rb: Request, a: int, b: int, c: int)
    returns (es: seq<Event>)
    requires Good(s) && s.T.IsContest(c) && SlotUser(s.T, c, 2) == 0
    requires t1 != t2 && t1 !in s.threads && t2 !in s.threads
    requires SlotRequest(s.schema, s.T, ra, a, c, 2) && SlotRequest(s.schema, s.T, rb, b, c, 2)
    ensures var s' := RunFrom(s, es);
      && Good(s') && s'.schema == s.schema && s'.T.users == s.T.users && s'.T.IsContest(c)
      && SlotUser(s'.T, c, 2) == a
      && t1 in s'.threads && t2 in s'.threads && s'.threads == s.threads[t1 := s'.threads[t1]][t2 := s'.threads[t2]]
      && s'.threads[t1].pc.Done? && Heading(s'.threads[t2], c, 2) && UpdatingUser(s'.threads[t2].pc) == b
  {
    hide Good, SlotRequest, MayUpdate, SlotUser;
    MayUpdateOwn(s, c, a);
    MayUpdateOwn(s, c, b);
    var e1 := SetsOut(s, t1, ra, a, c, 2, Sight(false, 0, 0, 0));
    var s1 := RunFrom(s, e1);
    var e2 := SetsOut(s1, t2, rb, b, c, 2, Sight(false, 0, 0, 0));
    var s2 := RunFrom(s1, e2);
    assert s2.threads[t1] == s1.threads[t1];
    var e3 := UpdateLands(s2, t1, c, 2);
    RunFromGood(s2, e3);
    RunAppend(s, e1, e2);
    RunAppend(s, e1 + e2, e3);
    es := e1 + e2 + e3;
  }

  /** The first user, now holding the slot, passes the check again; then the second user writes. */
  lemma SecondWrites(s: Sys, t2: nat, t3: nat, ra: Request, a: int, b: int, c: int) returns (es: seq<Event>)
    requires Good(s) && s.T.IsContest(c) && SlotUser(s.T, c, 2) == a
    requires t2 in s.threads && Heading(s.threads[t2], c, 2) && UpdatingUser(s.threads[t2].pc) == b
    requires t3 !in s.threads && a != 0 && SlotRequest(s.schema, s.T, ra, a, c, 2)
    requires forall t :: t in s.threads && t != t2 ==> !Heading(s.threads[t], c, 2)
    ensures var s' := RunFrom(s, es);
      && Good(s') && s'.T.IsContest(c) && SlotUser(s'.T, c, 2) == b
      && t3 in s'.threads && Heading(s'.threads[t3], c, 2) && UpdatingUser(s'.threads[t3].pc) == a
      && forall t :: t in s'.threads && Heading(s'.threads[t], c, 2) ==> ReadAsTaken(s'.threads[t].pc)
  {
    hide Good, SlotRequest, MayUpdate;
    MayUpdateOwn(s, c, a);
    var e1 := SetsOut(s, t3, ra, a, c, 2, Sight(false, 0, 0, 0));
    var s1 := RunFrom(s, e1);
    assert s1.threads[t2] == s.threads[t2];
    var e2 := UpdateLands(s1, t2, c, 2);
    var s2 := RunFrom(s1, e2);
    RunFromGood(s1, e2);
    RunAppend(s, e1, e2);
    es := e1 + e2;
    assert s2.threads[t3] == s1.threads[t3];
    OthersReadTaken(s, s1, s2, t2, t3, c);
  }

  lemma OthersReadTaken(s: Sys, s1: Sys, s2: Sys, t2: nat, t3: nat, c: int)
    requires t2 in s.threads && t3 !in s.threads
    requires OnlyThis(s, s1, t3) && OnlyThis(s1, s2, t2) && s2.threads[t2].pc.Done? && ReadAsTaken(s1.threads[t3].pc)
    requires forall t :: t in s.threads && t != t2 ==> !Heading(s.threads[t], c, 2)
    ensures forall t :: t in s2.threads && Heading(s2.threads[t], c, 2) ==> ReadAsTaken(s2.threads[t].pc)
  {
    assert forall t :: t in s2.threads ==> t == t2 || t == t3 || (t in s.threads && s2.threads[t] == s.threads[t]);
    assert s2.threads[t3] == s1.threads[t3];
    hide ReadAsTaken, Heading, UpdatingUser, OnlyThis;
    assert ReadAsTaken(s2.threads[t2].pc) by { DoneReadsTaken(s2.threads[t2].pc); }
  }

  lemma DoneReadsTaken(pc: Pc)
    requires pc.Done?
    ensures ReadAsTaken(pc)
  {
  }

  /** That the slot changes only while an update that read it as empty is in flight is false: whenever
      slot 2 of a named contest is empty, no update of it is in flight, and two users ask for it, one of
      them twice, there is a run in which the second user gets it, every update that read it as empty
      is finished, no further request arrives, and yet the first user takes it back. */
  lemma SlotTakenBack(s: Sys, t1: nat, t2: nat, t3: nat, ra: Request, rb: Request, a: int, b: int, c: int)
    returns (es: seq<Event>, fs: seq<Event>)
    requires Good(s) && NamedContest(s.T, c) && SlotUser(s.T, c, 2) == 0
    requires t1 != t2 && t1 != t3 && t2 != t3 && t1 !in s.threads && t2 !in s.threads && t3 !in s.threads
    requires a != b && SlotRequest(s.schema, s.T, ra, a, c, 2) && SlotRequest(s.schema, s.T, rb, b, c, 2)
    requires forall t :: t in s.threads ==> !Heading(s.threads[t], c, 2)
    ensures var s' := RunFrom(s, es);
      && SlotUser(s'.T, c, 2) == b
      && (forall t :: t in s'.threads && Heading(s'.threads[t], c, 2) ==> ReadAsTaken(s'.threads[t].pc))
      && SlotUser(RunFrom(s, es + fs).T, c, 2) == a
    ensures forall e <- fs :: e.Send?
  {
    hide Good, SlotRequest, MayUpdate, ReadAsTaken, SlotUser;
    AskerIsSomeone(s.schema, s.T, ra, a, c, 2);
    var e1 := BothReadEmpty(s, t1, t2, ra, rb, a, b, c);
    var s1 := RunFrom(s, e1);
    SameUsersSameRequest(s.schema, s.T, s1.T, ra, a, c, 2);
    assert forall t :: t in s1.threads && t != t2 ==> !Heading(s1.threads[t], c, 2);
    hide Heading, UpdatingUser;
    var e2 := SecondWrites(s1, t2, t3, ra, a, b, c);
    fs := UpdateLands(RunFrom(s1, e2), t3, c, 2);
    es := e1 + e2;
    RunAppend(s, e1, e2);
    RunAppend(s, es, fs);
  }

  lemma AskerIsSomeone(schema: Schema, T: Tables, req: Request, uid: int, c: int, slot: int)
    requires SlotRequest(schema, T, req, uid, c, slot)
    ensures uid != 0
  {
  }
}
