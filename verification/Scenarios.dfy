/** Runs that show that the conditions of the theorems are needed, and that their hypotheses can be met.
    They use the server's own reserved-word list. */
module Scenarios {
  import opened Text
  import opened Tables
  import opened Requests
  import opened Integrity
  import opened Accounts
  import opened QueryText
  import opened ReservedWords
  import opened SerialRuns
  import Owners
  import Slots

  // ---------- two creations of one name ----------

  lemma CheckPasses(s: Sys, t: nat, junk: Sight)
    requires s.Active(t) && s.threads[t].pc.UserCheck? && s.T == EMPTY && s.threads[t].req.username != ""
    ensures Step(s, Send(t, true, junk)) == s.(threads := s.threads[t := s.threads[t].(pc := UserInsert)])
  {
    assert s.last[t := s.last[t]] == s.last;
  }

  lemma InsertSucceeds(s: Sys, t: nat, junk: Sight)
    requires s.Active(t) && s.threads[t].pc.UserInsert? && !s.schema.uniqueNames
    requires !EmailUsed(s.T.users, s.threads[t].req.p1)
    ensures var s' := Step(s, Send(t, true, junk));
      var req := s.threads[t].req;
      && s'.T == s.T.(users := s.T.users + [User(req.username, req.password, req.p1)])
      && s'.threads == s.threads[t := s.threads[t].(pc := Refuse(1005))]
      && s'.schema == s.schema && s'.last.Keys == s.last.Keys
  {
  }

  lemma CreationBegins(schema: Schema, req: Request)
    requires schema.reserved == RESERVED_WORDS && req.requestid == "createuser" && req.p1 != ""
    requires Lowercase(req.username) && Lowercase(req.password) && Lowercase(req.p1)
    ensures Begin(schema, req).pc == UserCheck && Begin(schema, req).req == req && Admissible(req)
  {
    LowercaseIsAccepted(req.username);
    LowercaseIsAccepted(req.password);
    LowercaseIsAccepted(req.p1);
    hide Accepted, RESERVED_WORDS;
    assert KindOf(req.requestid).CreateUser?;
  }

  lemma RunOfSix(s: Sys, a: Event, b: Event, c: Event, d: Event, e: Event, f: Event)
    ensures RunFrom(s, [a, b, c, d, e, f]) == Step(Step(Step(Step(Step(Step(s, a), b), c), d), e), f)
  {
    hide Step;
    RunSnoc(s, [], a);
    RunSnoc(s, [a], b);
    RunSnoc(s, [a, b], c);
    RunSnoc(s, [a, b, c], d);
    RunSnoc(s, [a, b, c, d], e);
    RunSnoc(s, [a, b, c, d, e], f);
    assert [] + [a] == [a] && [a] + [b] == [a, b] && [a, b] + [c] == [a, b, c];
    assert [a, b, c] + [d] == [a, b, c, d] && [a, b, c, d] + [e] == [a, b, c, d, e];
    assert [a, b, c, d, e] + [f] == [a, b, c, d, e, f];
  }

  function Race(s: Sys, junk: Sight): Sys {
    Step(Step(Step(Step(s, Send(0, true, junk)), Send(1, true, junk)), Send(0, true, junk)), Send(1, true, junk))
  }

  lemma RaceStoresBoth(s: Sys, junk: Sight)
    requires s.T == EMPTY && !s.schema.uniqueNames && s.Active(0) && s.Active(1)
    requires s.threads[0].pc.UserCheck? && s.threads[1].pc.UserCheck?
    requires s.threads[0].req.username != "" && s.threads[1].req.username != ""
    requires s.threads[0].req.p1 != s.threads[1].req.p1
    ensures var a, b := s.threads[0].req, s.threads[1].req;
      && Race(s, junk).T.users == [User(a.username, a.password, a.p1), User(b.username, b.password, b.p1)]
      && {0, 1} <= Race(s, junk).threads.Keys
      && Race(s, junk).threads[0] == s.threads[0].(pc := Refuse(1005))
      && Race(s, junk).threads[1] == s.threads[1].(pc := Refuse(1005))
  {
    hide Step;
    CheckPasses(s, 0, junk);
    var s3 := Step(s, Send(0, true, junk));
    CheckPasses(s3, 1, junk);
    var s4 := Step(s3, Send(1, true, junk));
    InsertSucceeds(s4, 0, junk);
    var s5 := Step(s4, Send(0, true, junk));
    InsertSucceeds(s5, 1, junk);
  }

  lemma SecondAccountShadows(T: Tables, name: string, a: string, b: string)
    requires |T.users| == 2 && a != b
    requires T.users[0].name == name && T.users[0].password == a
    requires T.users[1].name == name && T.users[1].password == b
    ensures !UniqueNames(T) && !Authenticates(T, name, a)
  {
    assert T.NameOf(1) == T.NameOf(2);
  }

  /** Two createUser requests for one name, each past its SELECT before the other's INSERT, are both
      answered with 1005 when the schema has no UNIQUE key, and the first password is refused from
      then on. */
  lemma OverlappingCreations(schema: Schema) returns (es: seq<Event>)
    requires !schema.uniqueNames && schema.reserved == RESERVED_WORDS
    ensures var s := Run(schema, es);
      && Created(s, "bob", "a") && Created(s, "bob", "b")
      && !UniqueNames(s.T)
      && !Authenticates(s.T, "bob", "a")
  {
    hide RESERVED_WORDS;
    var junk := Sight(false, 0, 0, 0);
    var first := Request("createuser", "bob", "a", "x", "", "", "");
    var second := Request("createuser", "bob", "b", "y", "", "", "");
    CreationBegins(schema, first);
    CreationBegins(schema, second);
    hide Begin, LocalStep, Admissible;
    var s2 := Step(Step(Init(schema), Arrive(0, first)), Arrive(1, second));
    assert s2.Active(0) && s2.Active(1) && s2.threads[0].req == first && s2.threads[1].req == second;
    RaceStoresBoth(s2, junk);
    var a, b, c, d := Arrive(0, first), Arrive(1, second), Send(0, true, junk), Send(1, true, junk);
    es := [a, b, c, d, c, d];
    RunOfSix(Init(schema), a, b, c, d, c, d);
    var s6 := Race(s2, junk);
    hide Step, Run, Race;
    SecondAccountShadows(s6.T, "bob", "a", "b");
    assert CreatedBy(s6.threads[0], "bob", "a") && CreatedBy(s6.threads[1], "bob", "b");
  }

  // ---------- two users and a contest between them ----------

  const ANN := Request("createuser", "ann", "p", "x", "", "", "")
  const BOB := Request("createuser", "bob", "q", "y", "", "", "")
  const CATS := Request("createcontest", "ann", "p", "cats", "bob", "soon", "")
  const ANN_PHOTO := Request("updateimage", "ann", "p", "1", "i", "2", "j")
  const BOB_PHOTO := Request("updateimage", "bob", "q", "1", "k", "2", "l")
  const BOB_FIRST := Request("updateimage", "bob", "q", "1", "k", "1", "l")
  const USERS := [User("ann", "p", "x"), User("bob", "q", "y")]
  const CONTEST := Contest(1, 0, "cats", 0, 0, 0, 0, 0, 0, 2, "soon")
  const NOTHING := Sight(false, 0, 0, 0)

  /** A connection left to itself from its first step, nothing failing. */
  function Served(schema: Schema, T: Tables, req: Request): Local {
    Alone(schema, Local(T, 0, Begin(schema, req)), {}, 0, NOTHING)
  }

  lemma CreationSteps(schema: Schema, l: Local)
    requires l.th.pc.UserCheck? && l.th.req.username != "" && FindUser(l.T.users, l.th.req.username) == 0
    requires !EmailUsed(l.T.users, l.th.req.p1)
    ensures var l1 := LocalStep(schema, l, true, NOTHING);
      l1 == l.(th := l.th.(pc := UserInsert)) && Stores(schema, l1, true)
  {
  }

  lemma CreationServed(schema: Schema, T: Tables, req: Request)
    requires Begin(schema, req).pc == UserCheck && Begin(schema, req).req == req
    requires req.username != "" && FindUser(T.users, req.username) == 0 && !EmailUsed(T.users, req.p1)
    ensures Served(schema, T, req).T.users == T.users + [AccountOf(req)]
    ensures Served(schema, T, req).T.contests == T.contests && Served(schema, T, req).th.pc.Done?
  {
    var l := Local(T, 0, Begin(schema, req));
    CreationSteps(schema, l);
    var l1 := LocalStep(schema, l, true, NOTHING);
    StatementOnUsers(schema, l1, true, NOTHING);
    AloneUnfolds(schema, l, {}, 0, NOTHING);
    AloneUnfolds(schema, l1, {}, 1, NOTHING);
    InsertKeepsContests(schema, l1);
    hide LocalStep, Begin, Alone, Stores, FindUser, EmailUsed;
  }

  lemma InsertKeepsContests(schema: Schema, l: Local)
    requires l.th.pc.UserInsert?
    ensures LocalStep(schema, l, true, NOTHING).T.contests == l.T.contests
  {
  }

  /** The five statements of a createcontest request that names a permitted user. */
  lemma ContestSteps(schema: Schema, l: Local, a: int, b: int)
    requires FindUser(l.T.users, l.th.req.username) == a != 0 && FindUser(l.T.users, l.th.req.p2) == b != 0
    requires l.th.pc.PermitUser?
    ensures var l1 := LocalStep(schema, l, true, NOTHING);
      l1 == l.(th := l.th.(pc := CreatorUser(b)))
      && LocalStep(schema, l1, true, NOTHING) == l.(th := l.th.(pc := ContestInsert(a, b)))
  {
    assert LocalStep(schema, l, true, NOTHING) == l.(th := l.th.(pc := CreatorUser(b)));
  }

  lemma ContestStored(schema: Schema, l: Local)
    requires l.th.pc.ContestInsert?
    ensures var m := LocalStep(schema, l, true, NOTHING);
      && m.T == l.T.(contests := l.T.contests +
           [Contest(l.th.pc.uid, 0, l.th.req.p1, 0, 0, 0, 0, 0, 0, l.th.pc.permission, Endtime(l.th.req))])
      && m.th.pc == ContestLastId(l.th.pc.uid, l.th.pc.permission)
  {
  }

  lemma ContestKeyed(schema: Schema, l: Local)
    requires l.th.pc.ContestLastId?
    ensures LocalStep(schema, l, true, NOTHING).T == l.T && LocalStep(schema, l, true, NOTHING).th.pc.Done?
  {
  }

  lemma ContestLogin(schema: Schema, l: Local)
    requires l.th.pc.Login? && l.th.kind.CreateContest? && PasswordOf(l.T, l.th.req.username) == Some(l.th.req.password)
    requires l.th.req.p1 != "" && l.th.req.p2 != "" && ContestStart(schema, l.th.req).PermitUser?
    ensures LocalStep(schema, l, true, NOTHING) == l.(th := l.th.(pc := PermitUser))
  {
    hide ContestStart;
  }

  lemma ContestServed(schema: Schema, T: Tables, req: Request, a: int, b: int)
    requires var th := Begin(schema, req); th.pc.Login? && th.kind.CreateContest? && th.req == req
    requires PasswordOf(T, req.username) == Some(req.password) && req.p1 != "" && req.p2 != ""
    requires ContestStart(schema, req).PermitUser?
    requires FindUser(T.users, req.username) == a && FindUser(T.users, req.p2) == b != 0
    ensures var m := Served(schema, T, req);
      && m.T == T.(contests := T.contests + [Contest(a, 0, req.p1, 0, 0, 0, 0, 0, 0, b, Endtime(req))])
      && m.th.pc.Done?
  {
    var l := Local(T, 0, Begin(schema, req));
    ContestLogin(schema, l);
    var l1 := LocalStep(schema, l, true, NOTHING);
    ContestSteps(schema, l1, a, b);
    var l2 := LocalStep(schema, l1, true, NOTHING);
    var l3 := LocalStep(schema, l2, true, NOTHING);
    ContestStored(schema, l3);
    var l4 := LocalStep(schema, l3, true, NOTHING);
    ContestKeyed(schema, l4);
    hide LocalStep, Begin, Alone, ContestStart, FindUser, Endtime;
    AloneUnfolds(schema, l, {}, 0, NOTHING);
    AloneUnfolds(schema, l1, {}, 1, NOTHING);
    AloneUnfolds(schema, l2, {}, 2, NOTHING);
    AloneUnfolds(schema, l3, {}, 3, NOTHING);
    AloneUnfolds(schema, l4, {}, 4, NOTHING);
  }

  lemma CatsBegins(schema: Schema)
    requires schema.reserved == RESERVED_WORDS
    ensures var th := Begin(schema, CATS); th.pc.Login? && th.kind.CreateContest? && th.req == CATS
    ensures ContestStart(schema, CATS).PermitUser? && Admissible(CATS) && Endtime(CATS) == "soon"
  {
    hide RESERVED_WORDS;
    LowercaseIsAccepted("ann");
    LowercaseIsAccepted("p");
    LowercaseIsAccepted("cats");
    LowercaseIsAccepted("bob");
    LowercaseIsAccepted("soon");
    hide Accepted;
    assert Stoi("bob") == None by { assert SkipSpace("bob") == "bob" && DigitRun("bob") == ""; }
    hide Stoi;
  }

  lemma StagedUsers(T: Tables)
    requires T.users == USERS
    ensures FindUser(T.users, "ann") == 1 && FindUser(T.users, "bob") == 2
    ensures PasswordOf(T, "ann") == Some("p") && PasswordOf(T, "bob") == Some("q")
  {
    FindUserAppend([User("ann", "p", "x")], User("bob", "q", "y"), "ann");
    FindUserAppend([User("ann", "p", "x")], User("bob", "q", "y"), "bob");
    FindUserAppend([], User("ann", "p", "x"), "ann");
    assert [] + [User("ann", "p", "x")] == [User("ann", "p", "x")];
    assert [User("ann", "p", "x")] + [User("bob", "q", "y")] == USERS;
  }

  /** The stage: ann and bob have accounts, and ann's contest permits bob. */
  ghost predicate Staged(s: Sys) {
    Good(s) && s.T.users == USERS && s.T.contests == [CONTEST] && s.schema.reserved == RESERVED_WORDS
  }

  /** One more request has come and gone. */
  ghost predicate OneMore(s: Sys, s': Sys, t: nat) {
    t in s'.threads && s'.threads == s.threads[t := s'.threads[t]] && s'.threads[t].pc.Done? && s'.schema == s.schema
  }

  lemma Joins(s: Sys, t: nat, req: Request) returns (es: seq<Event>)
    requires t !in s.threads && Admissible(req)
    requires Begin(s.schema, req).pc == UserCheck && Begin(s.schema, req).req == req
    requires req.username != "" && FindUser(s.T.users, req.username) == 0 && !EmailUsed(s.T.users, req.p1)
    ensures var s' := RunFrom(s, es);
      OneMore(s, s', t) && s'.T.users == s.T.users + [AccountOf(req)] && s'.T.contests == s.T.contests
  {
    CreationServed(s.schema, s.T, req);
    es := ArrivesAlone(s, t, req);
    hide Begin, Alone, FindUser, EmailUsed, RunFrom;
  }

  lemma Opens(s: Sys, t: nat) returns (es: seq<Event>)
    requires t !in s.threads && s.T.users == USERS && s.T.contests == [] && s.schema.reserved == RESERVED_WORDS
    ensures var s' := RunFrom(s, es);
      OneMore(s, s', t) && s'.T.users == USERS && s'.T.contests == [CONTEST]
  {
    hide RESERVED_WORDS;
    CatsBegins(s.schema);
    StagedUsers(s.T);
    ContestServed(s.schema, s.T, CATS, 1, 2);
    es := ArrivesAlone(s, t, CATS);
    hide Begin, Alone, FindUser, RunFrom, PasswordOf, Endtime, Admissible;
  }

  /** Two connections have come and gone, and ann and bob have accounts. */
  lemma BothJoin(s: Sys, n: nat) returns (es: seq<Event>)
    requires s.T.users == [] && s.T.contests == [] && s.schema.reserved == RESERVED_WORDS
    requires n !in s.threads && n + 1 !in s.threads
    ensures var s' := RunFrom(s, es);
      && s'.T.users == USERS && s'.T.contests == [] && s'.schema == s.schema
      && {n, n + 1} <= s'.threads.Keys
      && s'.threads == s.threads[n := s'.threads[n]][n + 1 := s'.threads[n + 1]]
      && s'.threads[n].pc.Done? && s'.threads[n + 1].pc.Done?
  {
    hide RESERVED_WORDS, RunFrom;
    CreationBegins(s.schema, ANN);
    CreationBegins(s.schema, BOB);
    hide Begin, Admissible;
    var e1 := Joins(s, n, ANN);
    var s1 := RunFrom(s, e1);
    BobIsFree(s1.T);
    hide FindUser, EmailUsed;
    var e2 := Joins(s1, n + 1, BOB);
    RunAppend(s, e1, e2);
    es := e1 + e2;
  }

  /** From any state without accounts and contests the stage can be set, on three new connections. */
  lemma SetStage(s: Sys, n: nat) returns (es: seq<Event>)
    requires Good(s) && s.T.users == [] && s.T.contests == [] && s.schema.reserved == RESERVED_WORDS
    requires n !in s.threads && n + 1 !in s.threads && n + 2 !in s.threads
    ensures var s' := RunFrom(s, es);
      && Staged(s') && s'.schema == s.schema
      && {n, n + 1, n + 2} <= s'.threads.Keys
      && s'.threads == s.threads[n := s'.threads[n]][n + 1 := s'.threads[n + 1]][n + 2 := s'.threads[n + 2]]
      && s'.threads[n].pc.Done? && s'.threads[n + 1].pc.Done? && s'.threads[n + 2].pc.Done?
  {
    hide RESERVED_WORDS, Good, RunFrom;
    var e1 := BothJoin(s, n);
    var e2 := Opens(RunFrom(s, e1), n + 2);
    RunAppend(s, e1, e2);
    es := e1 + e2;
    RunFromGood(s, es);
  }

  lemma BobIsFree(T: Tables)
    requires T.users == [User("ann", "p", "x")]
    ensures FindUser(T.users, "bob") == 0 && !EmailUsed(T.users, "y")
  {
  }

  lemma PhotoRequest(schema: Schema, T: Tables, req: Request, uid: int, slot: int)
    requires schema.reserved == RESERVED_WORDS && T.users == USERS
    requires (req == ANN_PHOTO && uid == 1 && slot == 2) || (req == BOB_PHOTO && uid == 2 && slot == 2)
             || (req == BOB_FIRST && uid == 2 && slot == 1)
    ensures Slots.SlotRequest(schema, T, req, uid, 1, slot)
  {
    hide RESERVED_WORDS, Contains;
    LowercaseIsAccepted(req.username);
    LowercaseIsAccepted(req.password);
    StagedUsers(T);
    OneAndTwo();
    hide Accepted, Stoi, FindUser;
    assert Admissible(req);
  }

  lemma OneAndTwo()
    ensures Stoi("1") == Some(1) && Stoi("2") == Some(2)
  {
    StoiReadsInt(1, "");
    StoiReadsInt(2, "");
    assert IntToString(1) + "" == "1" && IntToString(2) + "" == "2";
    hide Stoi;
  }

  lemma StagedIsQuiet(s: Sys, s': Sys, n: nat)
    requires forall t :: t in s.threads ==> !Slots.Heading(s.threads[t], 1, 2)
    requires {n, n + 1, n + 2} <= s'.threads.Keys
    requires s'.threads == s.threads[n := s'.threads[n]][n + 1 := s'.threads[n + 1]][n + 2 := s'.threads[n + 2]]
    requires s'.threads[n].pc.Done? && s'.threads[n + 1].pc.Done? && s'.threads[n + 2].pc.Done?
    ensures forall t :: t in s'.threads ==> !Slots.Heading(s'.threads[t], 1, 2)
  {
  }

  /** The hypotheses of Slots.SlotTakenBack are met in a reachable state: a run from empty tables in
      which bob holds slot 2, every update that read it as empty is finished, no request arrives any
      more, and ann takes it back. */
  lemma AnnTakesBack(schema: Schema) returns (es: seq<Event>, fs: seq<Event>)
    requires schema.reserved == RESERVED_WORDS
    ensures var s := Run(schema, es);
      && Slots.NamedContest(s.T, 1) && Slots.SlotUser(s.T, 1, 2) == 2
      && (forall t :: t in s.threads && Slots.Heading(s.threads[t], 1, 2) ==> Slots.ReadAsTaken(s.threads[t].pc))
      && Slots.SlotUser(Run(schema, es + fs).T, 1, 2) == 1
    ensures forall e <- fs :: e.Send?
  {
    hide RESERVED_WORDS, RunFrom, Good, Slots.SlotRequest, Slots.Heading, Slots.ReadAsTaken;
    var s0 := Init(schema);
    var e1 := StageForBack(schema);
    var s := RunFrom(s0, e1);
    var e2;
    e2, fs := Slots.SlotTakenBack(s, 3, 4, 5, ANN_PHOTO, BOB_PHOTO, 1, 2, 1);
    RunAppend(s0, e1, e2);
    RunAppend(s0, e1, e2 + fs);
    assert e1 + (e2 + fs) == e1 + e2 + fs;
    es := e1 + e2;
    RunGrows(s, e2);
    StaysNamed(s.T, RunFrom(s, e2).T);
  }

  lemma StaysNamed(T: Tables, U: Tables)
    requires Slots.NamedContest(T, 1) && Grows(T, U)
    ensures Slots.NamedContest(U, 1)
  {
  }

  /** A reachable state that meets the hypotheses of Slots.SlotTakenBack. */
  lemma StageForBack(schema: Schema) returns (es: seq<Event>)
    requires schema.reserved == RESERVED_WORDS
    ensures var s := Run(schema, es);
      && Good(s) && s.schema == schema && Slots.NamedContest(s.T, 1) && Slots.SlotUser(s.T, 1, 2) == 0
      && 3 !in s.threads && 4 !in s.threads && 5 !in s.threads
      && Slots.SlotRequest(schema, s.T, ANN_PHOTO, 1, 1, 2) && Slots.SlotRequest(schema, s.T, BOB_PHOTO, 2, 1, 2)
      && forall t :: t in s.threads ==> !Slots.Heading(s.threads[t], 1, 2)
  {
    hide RESERVED_WORDS, RunFrom, Good, Slots.SlotRequest;
    var s0 := Init(schema);
    EmptyIsGood(schema);
    es := SetStage(s0, 0);
    var s := RunFrom(s0, es);
    StagedIsQuiet(s0, s, 0);
    PhotoRequest(schema, s.T, ANN_PHOTO, 1, 2);
    PhotoRequest(schema, s.T, BOB_PHOTO, 2, 2);
    OnlyThree(s0, s, 0);
    assert s.T.contests[0] == CONTEST;
  }

  lemma EmptyIsGood(schema: Schema)
    ensures Good(Init(schema))
  {
  }

  lemma OnlyThree(s: Sys, s': Sys, n: nat)
    requires {n, n + 1, n + 2} <= s'.threads.Keys
    requires s'.threads == s.threads[n := s'.threads[n]][n + 1 := s'.threads[n + 1]][n + 2 := s'.threads[n + 2]]
    ensures forall t: nat :: t !in s.threads && t > n + 2 ==> t !in s'.threads
    ensures forall t: nat :: t in s.threads && t < n ==> t in s'.threads && s'.threads[t] == s.threads[t]
  {
  }

  // ---------- an update that goes astray ----------

  const OTHER_ANN := Request("createuser", "ann", "r", "z", "", "", "")

  /** A second ann has looked the name up before the first one existed. */
  lemma OtherAnnLooks(schema: Schema) returns (es: seq<Event>)
    requires schema.reserved == RESERVED_WORDS
    ensures var s := RunFrom(Init(schema), es);
      && Good(s) && s.schema == schema && s.T == EMPTY && s.threads.Keys == {0} && 0 in s.last
      && s.threads[0].pc.UserInsert? && s.threads[0].req == OTHER_ANN
  {
    hide RESERVED_WORDS, Begin, Admissible, LocalStep, Good, RunFrom;
    var s0, a, e := Init(schema), Arrive(0, OTHER_ANN), Send(0, true, NOTHING);
    EmptyIsGood(schema);
    CreationBegins(schema, OTHER_ANN);
    var s1 := Step(s0, a);
    RunOfOne(s0, a);
    RunSnoc(s0, [a], e);
    es := [a] + [e];
    RunFromGood(s0, es);
    CheckPasses(s1, 0, NOTHING);
  }

  lemma OtherAnnOvertaken(s: Sys)
    requires !s.schema.uniqueNames && s.Active(0) && s.threads[0].pc.UserInsert? && s.threads[0].req == OTHER_ANN
    requires s.T.users == USERS
    ensures Overtaken(s, Send(0, true, NOTHING))
  {
    StagedUsers(s.T);
    hide FindUser;
  }

  /** Without a UNIQUE key on names there is a run from empty tables after which a slot shows an image
      that is not its user's. */
  lemma AnnShowsOtherAnnsImage(schema: Schema) returns (es: seq<Event>)
    requires !schema.uniqueNames && schema.reserved == RESERVED_WORDS
    ensures !Owners.SlotsOwned(Run(schema, es).T)
  {
    hide RESERVED_WORDS, RunFrom, Good;
    var e0 := OtherAnnLooks(schema);
    var s0 := RunFrom(Init(schema), e0);
    var e1 := SetStage(s0, 1);
    var s1 := RunFrom(s0, e1);
    OnlyThree(s0, s1, 1);
    PhotoRequest(schema, s1.T, ANN_PHOTO, 1, 2);
    hide Slots.SlotRequest, Slots.Heading;
    var e2 := Slots.SetsOut(s1, 4, ANN_PHOTO, 1, 1, 2, NOTHING);
    var s2 := RunFrom(s1, e2);
    assert s2.threads[0] == s1.threads[0] == s0.threads[0];
    assert 0 in s2.last by { KeysMatch(s2); }
    OtherAnnOvertaken(s2);
    hide Overtaken, Owners.SlotsOwned;
    var e3 := Owners.UpdateGoesAstray(s2, 4, 0, 1, 2);
    RunAppend(Init(schema), e0, e1);
    RunAppend(Init(schema), e0 + e1, e2);
    RunAppend(Init(schema), e0 + e1 + e2, e3);
    es := e0 + e1 + e2 + e3;
  }

  lemma KeysMatch(s: Sys)
    requires Good(s)
    ensures s.last.Keys == s.threads.Keys
  {
  }
}
