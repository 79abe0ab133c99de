/** Runs about single photos: one that lands in a contest stored after its check, one that is told it
    succeeded without a contest, and one that reads back to the client. */
module PhotoScenarios {
  import opened Tables
  import opened Requests
  import opened Integrity
  import opened QueryText
  import opened ReservedWords
  import opened SerialRuns
  import opened Scenarios
  import opened Text
  import Accounts
  import Delivery
  import Handler
  import Pictures
  import Replies
  import ServerDb
  import Slots

  // ---------- before the contest exists ----------

  /** ann and bob have accounts, there is no contest, and on connection 3 bob's update for slot 1 of
      contest 1 has passed its check, on leftovers that happen to be zero. */
  lemma BobPassesWithoutContest(schema: Schema) returns (es: seq<Event>)
    requires schema.reserved == RESERVED_WORDS
    ensures var s := Run(schema, es);
      && Good(s) && s.schema == schema && s.T.users == USERS && s.T.contests == []
      && 2 !in s.threads && 3 in s.threads
      && Slots.Heading(s.threads[3], 1, 1) && s.threads[3].pc == ImageOwner(2, NOTHING)
  {
    hide RESERVED_WORDS, RunFrom, Good;
    var s0 := Init(schema);
    EmptyIsGood(schema);
    var e1 := BothJoin(s0, 0);
    var s1 := RunFrom(s0, e1);
    RunFromGood(s0, e1);
    PhotoRequest(schema, s1.T, BOB_FIRST, 2, 1);
    hide Slots.SlotRequest;
    var e2 := Slots.SetsOut(s1, 3, BOB_FIRST, 2, 1, 1, NOTHING);
    RunAppend(s0, e1, e2);
    es := e1 + e2;
  }

  /** The creator of a named contest can lose slot 1: a run from empty tables after which ann's
      contest is stored with her in slot 1, and from which, no further request arriving, bob gets it. */
  lemma AnnLosesSlotOne(schema: Schema) returns (es: seq<Event>, fs: seq<Event>)
    requires schema.reserved == RESERVED_WORDS
    ensures var s := Run(schema, es);
      && s.T.contests == [CONTEST] && Slots.SlotUser(s.T, 1, 1) == 1
      && Slots.SlotUser(Run(schema, es + fs).T, 1, 1) == 2
    ensures forall e <- fs :: e.Send?
  {
    hide RESERVED_WORDS, RunFrom, Good, Slots.Heading;
    var e1 := BobPassesWithoutContest(schema);
    var s1 := Run(schema, e1);
    var e2 := Opens(s1, 2);
    var s2 := RunFrom(s1, e2);
    RunFromGood(s1, e2);
    assert s2.threads[3] == s1.threads[3];
    fs := Slots.UpdateLands(s2, 3, 1, 1);
    RunAppend(Init(schema), e1, e2);
    RunAppend(Init(schema), e1 + e2, fs);
    es := e1 + e2;
  }

  lemma HeadingMeans(th: Thread, c: int, slot: int)
    requires Slots.Heading(th, c, slot)
    ensures th.contest == c && th.slot == slot && Slots.UpdatingUser(th.pc) != 0
  {
  }

  /** An update of a contest that does not exist can be told 1011: a run from empty tables after which
      no contest is stored and bob has that answer. */
  lemma BobIsToldSuccess(schema: Schema) returns (es: seq<Event>)
    requires schema.reserved == RESERVED_WORDS
    ensures var s := Run(schema, es);
      && s.T.contests == [] && 3 in s.threads && s.threads[3].kind.UpdateImage? && s.threads[3].pc == Refuse(1011)
  {
    hide RESERVED_WORDS, RunFrom, Good, Slots.Heading;
    var e1 := BobPassesWithoutContest(schema);
    var s1 := Run(schema, e1);
    HeadingMeans(s1.threads[3], 1, 1);
    var e2 := Slots.UpdateReaches(s1, 3);
    var s2 := RunFrom(s1, e2);
    var e := Send(3, true, NOTHING);
    Slots.UpdateFinishes(s2, 3, NOTHING);
    UpdateKind(s2, 3, NOTHING);
    RunSnoc(s1, e2, e);
    RunAppend(Init(schema), e1, e2 + [e]);
    es := e1 + (e2 + [e]);
    hide Step;
  }

  lemma UpdateKind(s: Sys, t: nat, junk: Sight)
    requires Good(s) && t in s.threads && s.threads[t].pc.SlotUpdate?
    ensures var s' := Step(s, Send(t, true, junk)); t in s'.threads && s'.threads[t].kind.UpdateImage?
  {
    assert GoodThread(s.T, s.last[t], s.threads[t]);
  }

  // ---------- a photo that reads back ----------

  const LOOK := Request("getimage", "ann", "p", "1", "2", "", "")

  lemma LookBegins(schema: Schema, T: Tables)
    requires schema.reserved == RESERVED_WORDS && T.users == USERS
    ensures var th := Begin(schema, LOOK);
      && th.pc.Login? && th.kind.GetImage? && th.req == LOOK && th.contest == 1 && th.slot == 2
      && ParameterFault(GetImage, LOOK) == 0 && Admissible(LOOK)
  {
    hide RESERVED_WORDS, Contains;
    LowercaseIsAccepted("ann");
    LowercaseIsAccepted("p");
    OneAndTwo();
    hide Accepted, Stoi;
  }

  lemma LoginPasses(schema: Schema, l: Local)
    requires l.th.pc.Login? && Accounts.PasswordOf(l.T, l.th.req.username) == Some(l.th.req.password)
    ensures LocalStep(schema, l, true, NOTHING) == l.(th := l.th.(pc := AfterLogin(schema, l.th)))
  {
    hide AfterLogin, FindUser;
  }

  lemma LookLogsIn(schema: Schema, l: Local)
    requires l.th == Begin(schema, LOOK) && l.T.users == USERS && schema.reserved == RESERVED_WORDS
    ensures LocalStep(schema, l, true, NOTHING) == l.(th := l.th.(pc := PictureId))
  {
    LookBegins(schema, l.T);
    StagedUsers(l.T);
    hide Begin, Stoi, RESERVED_WORDS, FindUser, Accepted, LocalStep, Accounts.PasswordOf, ParameterFault;
    LoginPasses(schema, l);
  }

  /** ann asks for the photo in slot 2, and has logged in. */
  lemma AnnLooks(s: Sys, t: nat) returns (es: seq<Event>)
    requires Good(s) && t !in s.threads && s.T.users == USERS && s.schema.reserved == RESERVED_WORDS
    ensures var s' := RunFrom(s, es);
      && Good(s') && Slots.OnlyThis(s, s', t) && s'.T == s.T
      && s'.threads[t].pc == PictureId && s'.threads[t].contest == 1 && s'.threads[t].slot == 2
  {
    hide RESERVED_WORDS;
    var l, a, e := Local(s.T, 0, Begin(s.schema, LOOK)), Arrive(t, LOOK), Send(t, true, NOTHING);
    LookBegins(s.schema, s.T);
    LookLogsIn(s.schema, l);
    hide Begin, LocalStep, Admissible, Good;
    var m := LocalStep(s.schema, l, true, NOTHING);
    assert Step(s, a) == s.Put(t, l);
    Slots.PutSends(s, t, l, NOTHING);
    RunOfOne(s, a);
    RunSnoc(s, [a], e);
    es := [a] + [e];
    RunFromGood(s, es);
    hide Step, RunFrom;
    Slots.PutIsOnlyThis(s, t, m);
  }

  /** ann's photo "i" for slot 2 is about to be written, on connection 3, and she is about to look at
      that slot on connection 4. */
  ghost predicate AboutToShow(s: Sys) {
    && Good(s) && s.T.contests == [CONTEST]
    && s.Active(3) && s.threads[3].pc.SlotUpdate? && s.threads[3].req.p2 == "i"
    && s.threads[3].contest == 1 && s.threads[3].slot == 2
    && s.Active(4) && s.threads[4].pc.PictureId? && s.threads[4].contest == 1 && s.threads[4].slot == 2
  }

  lemma AnnIsAboutToWrite(schema: Schema) returns (es: seq<Event>)
    requires schema.reserved == RESERVED_WORDS
    ensures var s := Run(schema, es);
      && Good(s) && s.schema == schema && s.T.users == USERS && s.T.contests == [CONTEST] && 4 !in s.threads
      && 3 in s.threads && s.threads[3].pc.SlotUpdate? && s.threads[3].req.p2 == "i"
      && s.threads[3].contest == 1 && s.threads[3].slot == 2
  {
    hide RESERVED_WORDS, RunFrom, Good, Slots.Heading;
    var s0 := Init(schema);
    EmptyIsGood(schema);
    var e1 := SetStage(s0, 0);
    var s1 := RunFrom(s0, e1);
    OnlyThree(s0, s1, 0);
    PhotoRequest(schema, s1.T, ANN_PHOTO, 1, 2);
    hide Slots.SlotRequest;
    var e2 := Slots.SetsOut(s1, 3, ANN_PHOTO, 1, 1, 2, NOTHING);
    var s2 := RunFrom(s1, e2);
    HeadingMeans(s2.threads[3], 1, 2);
    var e3 := Slots.UpdateReaches(s2, 3);
    RunAppend(s0, e1, e2);
    RunAppend(s0, e1 + e2, e3);
    es := e1 + e2 + e3;
  }

  lemma AnnIsAboutToShow(schema: Schema) returns (es: seq<Event>)
    requires schema.reserved == RESERVED_WORDS
    ensures AboutToShow(Run(schema, es))
  {
    hide RESERVED_WORDS, RunFrom, Good;
    var e1 := AnnIsAboutToWrite(schema);
    var s1 := Run(schema, e1);
    var e2 := AnnLooks(s1, 4);
    KeysMatch(RunFrom(s1, e2));
    RunAppend(Init(schema), e1, e2);
    es := e1 + e2;
  }

  lemma WriteThenNothing(s: Sys, t: nat)
    ensures Pictures.WriteThen(s, t, NOTHING, []) == Step(s, Send(t, true, NOTHING))
  {
    hide Step;
  }

  /** What ann is answered in that state: the three statements in order, nothing in between. */
  lemma AnnIsShown(s: Sys)
    requires AboutToShow(s)
    ensures var s1 := Pictures.WriteThen(s, 3, NOTHING, []);
      && Pictures.NeverSet(Step(s, Send(3, true, NOTHING)), [], 1, 2)
      && s1.Active(4) && s1.threads[4] == s.threads[4]
      && var s2 := Step(Pictures.WriteThen(s1, 4, NOTHING, []), Send(4, true, NOTHING));
         4 in s2.threads && s2.threads[4].pc == Done(Picture("i"))
  {
    WriteThenNothing(s, 3);
    Slots.UpdateFinishes(s, 3, NOTHING);
    StepGood(s, Send(3, true, NOTHING));
    KeysMatch(Step(s, Send(3, true, NOTHING)));
    hide Step, Good, Slots.SlotUser, Pictures.WriteThen;
    Pictures.ImageReadsBack(s, 3, [], 4, [], NOTHING);
  }

  /** The hypotheses of Pictures.ImageReadsBack and Delivery.DeliveredImageIsStored are met in a
      reachable state: a run from empty tables whose last reply, sent by any printer of lists, reads
      back to ann's photo. */
  lemma AnnSeesHerPhoto(schema: Schema, text: Answer -> string) returns (es: seq<Event>, r: Replies.Reply)
    requires schema.reserved == RESERVED_WORDS
    ensures var s := Run(schema, es);
      && 4 in s.threads && s.threads[4].pc.Done?
      && Delivery.Delivers(Replies.Render(r), r, s.threads[4].pc.answer, text)
    ensures Replies.ParseReply(Replies.Render(r)).Some?
    ensures Delivery.ImageIn(Replies.ParseReply(Replies.Render(r)).value.2) == Some("i")
  {
    hide RESERVED_WORDS;
    var e1 := AnnIsAboutToShow(schema);
    var s := Run(schema, e1);
    AnnIsShown(s);
    var w, l := Send(3, true, NOTHING), Send(4, true, NOTHING);
    var s1 := Step(s, w);
    WriteThenNothing(s, 3);
    WriteThenNothing(s1, 4);
    RunOfThree(schema, e1, w, l, l);
    es := e1 + [w] + [l] + [l];
    hide Step, Run, Good, Replies.Render, Replies.ParseReply, Delivery.ImageIn;
    r := Replies.SetHeaders(Replies.Reply(200, [], Handler.ContentOf(Picture("i"), text)), "application/json");
    assert Replies.Framed(r);
    Delivery.DeliveredImageIsStored(s, 3, [], 4, [], NOTHING, Replies.Render(r), r, text);
  }

  lemma RunOfThree(schema: Schema, es: seq<Event>, a: Event, b: Event, c: Event)
    ensures Run(schema, es + [a] + [b] + [c]) == Step(Step(Step(Run(schema, es), a), b), c)
  {
    hide Step;
    RunSnoc(Init(schema), es, a);
    RunSnoc(Init(schema), es + [a], b);
    RunSnoc(Init(schema), es + [a] + [b], c);
  }
}
