/** Accounts and authentication over runs (source/srv_db.cpp:91-214). */
module Accounts {
  import opened Text
  import opened Tables
  import opened Requests
  import opened Integrity

  ghost predicate UniqueNames(T: Tables) {
    forall a, b :: T.IsUser(a) && T.IsUser(b) && T.NameOf(a) == T.NameOf(b) ==> a == b
  }

  lemma NobodyNamed(T: Tables, name: string)
    requires FindUser(T.users, name) == 0
    ensures forall a :: T.IsUser(a) ==> T.NameOf(a) != name
  {
    forall a | T.IsUser(a) ensures T.NameOf(a) != name {
      assert T.users[a - 1].name != name;
    }
  }

  lemma AppendKeepsNamesUnique(T: Tables, U: Tables, user: User)
    requires UniqueNames(T) && U.users == T.users + [user] && FindUser(T.users, user.name) == 0
    ensures UniqueNames(U)
  {
    NobodyNamed(T, user.name);
    assert forall a :: T.IsUser(a) ==> U.NameOf(a) == T.NameOf(a);
    assert forall a :: U.IsUser(a) ==> T.IsUser(a) || (a == |U.users| && U.NameOf(a) == user.name);
  }

  /** The INSERT of an account keeps user names unique exactly when nobody has the name. */
  lemma InsertKeepsNamesUnique(schema: Schema, T: Tables, last: int, name: string, password: string, email: string)
    requires UniqueNames(T)
    requires Execute(schema, T, last, InsertUser(name, password, email), true).result.Success?
    ensures UniqueNames(Execute(schema, T, last, InsertUser(name, password, email), true).tables)
            <==> FindUser(T.users, name) == 0
  {
    var U := T.(users := T.users + [User(name, password, email)]);
    var id := FindUser(T.users, name);
    if id != 0 {
      assert U.NameOf(id) == name && U.NameOf(|U.users|) == name;
    } else {
      AppendKeepsNamesUnique(T, U, User(name, password, email));
    }
  }

  // ---------- the INSERT of an account ----------

  /** This statement stores an account. */
  predicate Stores(schema: Schema, l: Local, ok: bool) {
    && ok && l.th.pc.UserInsert?
    && !EmailUsed(l.T.users, l.th.req.p1)
    && !(schema.uniqueNames && FindUser(l.T.users, l.th.req.username) != 0)
  }

  function AccountOf(req: Request): User {
    User(req.username, req.password, req.p1)
  }

  /** Accounts change, and a request is answered with 1005, exactly by such a statement. */
  lemma StatementOnUsers(schema: Schema, l: Local, ok: bool, junk: Sight)
    requires !l.th.pc.Done?
    ensures var m := LocalStep(schema, l, ok, junk);
      && m.th.req == l.th.req
      && m.T.users == (if Stores(schema, l, ok) then l.T.users + [AccountOf(l.th.req)] else l.T.users)
      && (m.th.pc == Refuse(1005) <==> Stores(schema, l, ok))
  {
    UsersAfterStatement(schema, l, ok, junk);
    if l.th.pc.UserInsert? {
      InsertAnswers(schema, l, ok, junk);
    } else {
      var r := Execute(schema, l.T, l.last, NextStatement(l.th), ok).result;
      OthersNeverAnswer1005(schema, l.th, r, junk);
    }
    hide Resume, Execute, NextStatement, EmailUsed, FindUser;
  }

  lemma UsersAfterStatement(schema: Schema, l: Local, ok: bool, junk: Sight)
    ensures LocalStep(schema, l, ok, junk).T.users ==
            if Stores(schema, l, ok) then l.T.users + [AccountOf(l.th.req)] else l.T.users
  {
  }

  lemma InsertAnswers(schema: Schema, l: Local, ok: bool, junk: Sight)
    requires l.th.pc.UserInsert?
    ensures LocalStep(schema, l, ok, junk).th.pc == Refuse(1005) <==> Stores(schema, l, ok)
  {
  }

  lemma OthersNeverAnswer1005(schema: Schema, th: Thread, r: Result, junk: Sight)
    requires !th.pc.UserInsert? && !th.pc.Done?
    ensures Resume(schema, th, r, junk) != Refuse(1005)
  {
    hide MayUpdate;
    if th.pc.Login? && th.kind.CreateContest? && ParameterFault(th.kind, th.req) == 0 {
      assert AfterLogin(schema, th) == ContestStart(schema, th.req);
    }
  }

  lemma FindUserAppend(users: seq<User>, user: User, name: string)
    ensures FindUser(users + [user], name) == if user.name == name then |users| + 1 else FindUser(users, name)
  {
    assert (users + [user])[..|users|] == users;
  }

  // ---------- names stay unique ----------

  /** An INSERT of an account takes effect although its name is no longer free: another request has
      stored it since this one's SELECT, and no UNIQUE key objects. */
  ghost predicate Overtaken(s: Sys, e: Event) {
    && e.Send? && e.ok && s.Active(e.t) && s.threads[e.t].pc.UserInsert?
    && !s.schema.uniqueNames
    && FindUser(s.T.users, s.threads[e.t].req.username) != 0
    && !EmailUsed(s.T.users, s.threads[e.t].req.p1)
  }

  ghost predicate OvertakenAt(schema: Schema, es: seq<Event>, i: nat)
    requires i < |es|
  {
    Overtaken(Run(schema, es[..i]), es[i])
  }

  ghost predicate NoneOvertaken(schema: Schema, es: seq<Event>) {
    forall i :: 0 <= i < |es| ==> !OvertakenAt(schema, es, i)
  }

  lemma SameUsersSameNames(T: Tables, U: Tables)
    requires U.users == T.users
    ensures UniqueNames(U) <==> UniqueNames(T)
  {
    assert forall a :: U.IsUser(a) <==> T.IsUser(a);
    assert forall a :: T.IsUser(a) ==> U.NameOf(a) == T.NameOf(a);
  }

  lemma AppendNames(T: Tables, U: Tables, user: User)
    requires U.users == T.users + [user]
    ensures UniqueNames(U) <==> UniqueNames(T) && FindUser(T.users, user.name) == 0
  {
    var id := FindUser(T.users, user.name);
    assert forall a :: T.IsUser(a) ==> U.IsUser(a) && U.NameOf(a) == T.NameOf(a);
    assert U.IsUser(|U.users|) && U.NameOf(|U.users|) == user.name;
    if id != 0 {
      assert T.IsUser(id) && U.NameOf(id) == user.name;
    }
    if UniqueNames(T) && id == 0 {
      AppendKeepsNamesUnique(T, U, user);
    }
  }

  lemma StepOnNames(s: Sys, e: Event)
    ensures UniqueNames(Step(s, e).T) <==> UniqueNames(s.T) && !Overtaken(s, e)
  {
    if e.Send? && s.Active(e.t) {
      var l := s.View(e.t);
      var m := LocalStep(s.schema, l, e.ok, e.junk);
      StatementOnUsers(s.schema, l, e.ok, e.junk);
      assert Step(s, e).T == m.T;
      hide LocalStep, EmailUsed, FindUser, UniqueNames, Step;
      if Stores(s.schema, l, e.ok) {
        AppendNames(l.T, m.T, AccountOf(l.th.req));
      } else {
        SameUsersSameNames(l.T, m.T);
      }
    }
  }

  lemma NoneOvertakenSnoc(schema: Schema, es: seq<Event>, e: Event)
    ensures NoneOvertaken(schema, es + [e]) <==> NoneOvertaken(schema, es) && !Overtaken(Run(schema, es), e)
  {
    var more := es + [e];
    hide Overtaken, Run;
    forall i | 0 <= i < |es|
      ensures OvertakenAt(schema, more, i) <==> OvertakenAt(schema, es, i)
    {
      assert more[..i] == es[..i];
    }
    assert more[..|es|] == es;
    assert OvertakenAt(schema, more, |es|) <==> Overtaken(Run(schema, es), e);
    hide OvertakenAt;
  }

  /** In every run: no two accounts share a name if and only if no INSERT was overtaken. */
  lemma {:induction false} NamesStayUnique(schema: Schema, es: seq<Event>)
    ensures UniqueNames(Run(schema, es).T) <==> NoneOvertaken(schema, es)
  {
    if es == [] {
    } else {
      var ds, e := es[..|es| - 1], es[|es| - 1];
      assert es == ds + [e];
      RunSnoc(Init(schema), ds, e);
      hide Step, UniqueNames, NoneOvertaken, Overtaken, RunFrom;
      NamesStayUnique(schema, ds);
      NoneOvertakenSnoc(schema, ds, e);
      StepOnNames(Run(schema, ds), e);
    }
  }

  /** User names are nonempty in every run; two accounts may share one only if some INSERT was
      overtaken. */
  lemma NamesAreProper(schema: Schema, es: seq<Event>, a: int, b: int)
    ensures var T := Run(schema, es).T;
      T.IsUser(a) && T.IsUser(b) ==>
        && T.NameOf(a) != ""
        && (NoneOvertaken(schema, es) && T.NameOf(a) == T.NameOf(b) ==> a == b)
  {
    NamesStayUnique(schema, es);
    RunGood(schema, es);
    hide Run, NoneOvertaken;
  }

  // ---------- accounts are the answered creations ----------

  ghost predicate CreatedBy(th: Thread, name: string, password: string) {
    th.pc == Refuse(1005) && th.req.username == name && th.req.password == password
  }

  /** Some createUser request for this name and password was answered with 1005. */
  ghost predicate Created(s: Sys, name: string, password: string) {
    exists t :: t in s.threads && CreatedBy(s.threads[t], name, password)
  }

  ghost predicate Stored(T: Tables, name: string, password: string) {
    exists id :: T.IsUser(id) && T.NameOf(id) == name && T.users[id - 1].password == password
  }

  ghost predicate AccountsMatch(s: Sys) {
    forall name, password :: Stored(s.T, name, password) <==> Created(s, name, password)
  }

  lemma StoredInUsers(T: Tables, U: Tables, name: string, password: string)
    requires U.users == T.users
    ensures Stored(U, name, password) <==> Stored(T, name, password)
  {
    if Stored(T, name, password) {
      var id :| T.IsUser(id) && T.NameOf(id) == name && T.users[id - 1].password == password;
      assert U.IsUser(id) && U.NameOf(id) == name;
    }
    if Stored(U, name, password) {
      var id :| U.IsUser(id) && U.NameOf(id) == name && U.users[id - 1].password == password;
      assert T.IsUser(id) && T.NameOf(id) == name;
    }
  }

  lemma StoredAppend(T: Tables, U: Tables, user: User, name: string, password: string)
    requires U.users == T.users + [user]
    ensures Stored(U, name, password) <==> Stored(T, name, password) || (user.name == name && user.password == password)
  {
    if Stored(T, name, password) {
      var id :| T.IsUser(id) && T.NameOf(id) == name && T.users[id - 1].password == password;
      assert U.IsUser(id) && U.NameOf(id) == name && U.users[id - 1].password == password;
    }
    if user.name == name && user.password == password {
      assert U.IsUser(|U.users|) && U.NameOf(|U.users|) == name;
    }
    if Stored(U, name, password) {
      var id :| U.IsUser(id) && U.NameOf(id) == name && U.users[id - 1].password == password;
      assert id == |U.users| || (T.IsUser(id) && T.NameOf(id) == name && T.users[id - 1].password == password);
    }
  }

  lemma PutCreated(s: Sys, t: nat, l: Local, name: string, password: string)
    requires t !in s.threads || !s.threads[t].pc.Done?
    ensures Created(s.Put(t, l), name, password) <==> Created(s, name, password) || CreatedBy(l.th, name, password)
  {
    var s' := s.Put(t, l);
    if Created(s, name, password) {
      var u :| u in s.threads && CreatedBy(s.threads[u], name, password);
      assert u in s'.threads && CreatedBy(s'.threads[u], name, password);
    }
    if CreatedBy(l.th, name, password) {
      assert t in s'.threads && CreatedBy(s'.threads[t], name, password);
    }
    if Created(s', name, password) {
      var u :| u in s'.threads && CreatedBy(s'.threads[u], name, password);
      assert u == t || (u in s.threads && CreatedBy(s.threads[u], name, password));
    }
  }

  lemma StepKeepsAccounts(s: Sys, e: Event)
    requires AccountsMatch(s)
    ensures AccountsMatch(Step(s, e))
  {
    if e.Arrive? && e.t !in s.threads && Admissible(e.req) {
      var l := Local(s.T, 0, Begin(s.schema, e.req));
      assert l.th.pc != Refuse(1005);
      forall name, password
        ensures Stored(l.T, name, password) <==> Created(s.Put(e.t, l), name, password)
      {
        PutCreated(s, e.t, l, name, password);
      }
    } else if e.Send? && s.Active(e.t) {
      var l := s.View(e.t);
      var m := LocalStep(s.schema, l, e.ok, e.junk);
      StatementOnUsers(s.schema, l, e.ok, e.junk);
      hide LocalStep, Stores;
      forall name, password
        ensures Stored(m.T, name, password) <==> Created(s.Put(e.t, m), name, password)
      {
        PutCreated(s, e.t, m, name, password);
        if Stores(s.schema, l, e.ok) {
          StoredAppend(l.T, m.T, AccountOf(l.th.req), name, password);
        } else {
          StoredInUsers(l.T, m.T, name, password);
        }
      }
    }
  }

  lemma {:induction false} RunKeepsAccounts(schema: Schema, es: seq<Event>)
    ensures AccountsMatch(Run(schema, es))
  {
    if es == [] {
    } else {
      RunKeepsAccounts(schema, es[..|es| - 1]);
      StepKeepsAccounts(Run(schema, es[..|es| - 1]), es[|es| - 1]);
    }
  }

  // ---------- authentication ----------

  /** What authenticateUser returns for this name and password when its SELECT succeeds. */
  ghost predicate Authenticates(T: Tables, name: string, password: string) {
    var r := Execute(Schema(false, false, []), T, 0, SelectUser(name), true).result;
    r.password == password
  }

  /** The authentication step of a request is that check. When its SELECT fails, as when the password
      is not the one found, it is answered with 1010, and passing it is not. */
  lemma LoginDecides(s: Sys, t: nat, ok: bool, junk: Sight)
    requires s.Active(t) && s.threads[t].pc.Login?
    ensures var th := s.threads[t];
      Step(s, Send(t, ok, junk)).threads[t].pc ==
        if ok && Authenticates(s.T, th.req.username, th.req.password) then AfterLogin(s.schema, th) else Refuse(1010)
    ensures AfterLogin(s.schema, s.threads[t]) != Refuse(1010)
  {
    AfterLoginIsNot1010(s.schema, s.threads[t]);
    hide AfterLogin;
  }

  lemma AfterLoginIsNot1010(schema: Schema, th: Thread)
    ensures AfterLogin(schema, th) != Refuse(1010)
  {
    if th.kind.CreateContest? && ParameterFault(th.kind, th.req) == 0 {
      assert AfterLogin(schema, th) == ContestStart(schema, th.req);
    }
  }

  /** The password of the last account with this name. */
  function PasswordOf(T: Tables, name: string): Option<string> {
    var id := FindUser(T.users, name);
    if id == 0 then None else Some(T.users[id - 1].password)
  }

  /** The password of the createUser request for this name that this event answers with 1005. */
  ghost function CreatedAt(s: Sys, e: Event, name: string): Option<string> {
    if e.Send? && s.Active(e.t) && s.threads[e.t].req.username == name && Step(s, e).threads[e.t].pc == Refuse(1005)
    then Some(s.threads[e.t].req.password)
    else None
  }

  /** The password of the last createUser request for this name that was answered with 1005. */
  ghost function LastCreated(schema: Schema, es: seq<Event>, name: string): Option<string> {
    if es == [] then None
    else
      var now := CreatedAt(Run(schema, es[..|es| - 1]), es[|es| - 1], name);
      if now.Some? then now else LastCreated(schema, es[..|es| - 1], name)
  }

  lemma AppendPassword(T: Tables, U: Tables, user: User, name: string)
    requires U.users == T.users + [user]
    ensures PasswordOf(U, name) == if name == user.name then Some(user.password) else PasswordOf(T, name)
  {
    FindUserAppend(T.users, user, name);
  }

  lemma StepOnPassword(s: Sys, e: Event, name: string)
    ensures var now := CreatedAt(s, e, name);
      PasswordOf(Step(s, e).T, name) == if now.Some? then now else PasswordOf(s.T, name)
  {
    if e.Send? && s.Active(e.t) {
      var l := s.View(e.t);
      var m := LocalStep(s.schema, l, e.ok, e.junk);
      StatementOnUsers(s.schema, l, e.ok, e.junk);
      assert Step(s, e).T == m.T && Step(s, e).threads[e.t] == m.th;
      hide LocalStep, Step, EmailUsed, FindUser;
      if Stores(s.schema, l, e.ok) {
        AppendPassword(l.T, m.T, AccountOf(l.th.req), name);
      } else {
        hide Stores;
        assert PasswordOf(m.T, name) == PasswordOf(s.T, name);
      }
      hide PasswordOf, Stores;
    }
  }

  lemma {:induction false} PasswordIsLastCreated(schema: Schema, es: seq<Event>, name: string)
    ensures PasswordOf(Run(schema, es).T, name) == LastCreated(schema, es, name)
  {
    if es == [] {
    } else {
      PasswordIsLastCreated(schema, es[..|es| - 1], name);
      StepOnPassword(Run(schema, es[..|es| - 1]), es[|es| - 1], name);
      hide Step, CreatedAt, PasswordOf;
    }
  }

  /** Authentication is decided by history, in every run: it succeeds exactly for the password of the
      last createUser request for the name that was answered with 1005, or for the empty password when
      there is none. */
  lemma AuthenticationIsHistory(schema: Schema, es: seq<Event>, name: string, password: string)
    ensures Authenticates(Run(schema, es).T, name, password) <==>
            match LastCreated(schema, es, name)
            case None => password == ""
            case Some(last) => password == last
  {
    PasswordIsLastCreated(schema, es, name);
    hide Run, LastCreated;
  }

  // ---------- any answered creation authenticates ----------

  /** A nonempty password authenticates exactly when some creation with it was answered with 1005. */
  ghost predicate CreationsCount(s: Sys) {
    forall name, password | password != "" ::
      Authenticates(s.T, name, password) <==> Created(s, name, password)
  }

  /** An overtaken INSERT that puts another password in front of a nonempty one. */
  ghost predicate Superseded(s: Sys, e: Event) {
    && Overtaken(s, e)
    && PasswordOf(s.T, s.threads[e.t].req.username) != Some("")
    && PasswordOf(s.T, s.threads[e.t].req.username) != Some(s.threads[e.t].req.password)
  }

  /** The same in terms of the stored rows. */
  ghost predicate RowsCount(T: Tables) {
    forall name, password | password != "" ::
      PasswordOf(T, name) == Some(password) <==> Stored(T, name, password)
  }

  lemma CountingRows(s: Sys)
    requires AccountsMatch(s)
    ensures CreationsCount(s) <==> RowsCount(s.T)
  {
    forall name, password | password != ""
      ensures Authenticates(s.T, name, password) <==> PasswordOf(s.T, name) == Some(password)
      ensures Stored(s.T, name, password) <==> Created(s, name, password)
    {
    }
    hide Authenticates, PasswordOf, Stored, Created, AccountsMatch;
  }

  lemma AppendCounts(T: Tables, U: Tables, user: User)
    requires U.users == T.users + [user] && RowsCount(T)
    ensures RowsCount(U) <==> PasswordOf(T, user.name) in [None, Some(""), Some(user.password)]
  {
    forall name, password
      ensures PasswordOf(U, name) == if name == user.name then Some(user.password) else PasswordOf(T, name)
      ensures Stored(U, name, password) <==>
              Stored(T, name, password) || (name == user.name && password == user.password)
    {
      AppendPassword(T, U, user, name);
      StoredAppend(T, U, user, name, password);
    }
    hide PasswordOf, Stored;
    var before := PasswordOf(T, user.name);
    if before.Some? && before.value != "" && before.value != user.password {
      assert Stored(U, user.name, before.value);
    }
  }

  lemma SameUsersCount(T: Tables, U: Tables)
    requires U.users == T.users
    ensures RowsCount(U) <==> RowsCount(T)
  {
    forall name, password
      ensures Stored(U, name, password) <==> Stored(T, name, password)
    {
      StoredInUsers(T, U, name, password);
    }
    assert forall name :: PasswordOf(U, name) == PasswordOf(T, name);
    hide PasswordOf, Stored;
  }

  lemma StepOnCounting(s: Sys, e: Event)
    requires RowsCount(s.T)
    ensures RowsCount(Step(s, e).T) <==> !Superseded(s, e)
  {
    if e.Send? && s.Active(e.t) {
      var l := s.View(e.t);
      var m := LocalStep(s.schema, l, e.ok, e.junk);
      StatementOnUsers(s.schema, l, e.ok, e.junk);
      assert Step(s, e).T == m.T;
      hide LocalStep, EmailUsed, FindUser, RowsCount, Step;
      if Stores(s.schema, l, e.ok) {
        AppendCounts(l.T, m.T, AccountOf(l.th.req));
      } else {
        SameUsersCount(l.T, m.T);
      }
    }
  }

  ghost predicate CountAt(schema: Schema, es: seq<Event>, i: nat)
    requires i <= |es|
  {
    CreationsCount(Run(schema, es[..i]))
  }

  ghost predicate SupersededAt(schema: Schema, es: seq<Event>, i: nat)
    requires i < |es|
  {
    Superseded(Run(schema, es[..i]), es[i])
  }

  ghost predicate AlwaysCount(schema: Schema, es: seq<Event>) {
    forall i :: 0 <= i <= |es| ==> CountAt(schema, es, i)
  }

  ghost predicate NoneSuperseded(schema: Schema, es: seq<Event>) {
    forall i :: 0 <= i < |es| ==> !SupersededAt(schema, es, i)
  }

  lemma CountingSnoc(schema: Schema, es: seq<Event>, e: Event)
    ensures AlwaysCount(schema, es + [e]) <==> AlwaysCount(schema, es) && CreationsCount(Run(schema, es + [e]))
    ensures NoneSuperseded(schema, es + [e]) <==> NoneSuperseded(schema, es) && !Superseded(Run(schema, es), e)
    ensures AlwaysCount(schema, es) ==> CreationsCount(Run(schema, es))
  {
    var more := es + [e];
    hide CreationsCount, Superseded, Run;
    forall i | 0 <= i <= |es|
      ensures CountAt(schema, more, i) <==> CountAt(schema, es, i)
      ensures i < |es| ==> (SupersededAt(schema, more, i) <==> SupersededAt(schema, es, i))
    {
      assert more[..i] == es[..i];
    }
    assert more[..|es|] == es[..|es|] == es && more[..|more|] == more;
    assert CountAt(schema, more, |more|) <==> CreationsCount(Run(schema, more));
    assert CountAt(schema, es, |es|) <==> CreationsCount(Run(schema, es));
    assert SupersededAt(schema, more, |es|) <==> Superseded(Run(schema, es), e);
    hide CountAt, SupersededAt;
  }

  lemma EventOnCounting(schema: Schema, es: seq<Event>, e: Event)
    requires CreationsCount(Run(schema, es))
    ensures CreationsCount(Run(schema, es + [e])) <==> !Superseded(Run(schema, es), e)
  {
    RunKeepsAccounts(schema, es);
    RunKeepsAccounts(schema, es + [e]);
    RunSnoc(Init(schema), es, e);
    hide AccountsMatch, CreationsCount, RowsCount, Superseded, Step;
    CountingRows(Run(schema, es));
    CountingRows(Run(schema, es + [e]));
    StepOnCounting(Run(schema, es), e);
  }

  /** That every answered creation authenticates, throughout a run, holds if and only if no INSERT of
      the run supersedes a nonempty password. */
  lemma {:induction false} AuthenticationIsCreation(schema: Schema, es: seq<Event>)
    ensures AlwaysCount(schema, es) <==> NoneSuperseded(schema, es)
  {
    if es == [] {
      EmptyCounts();
      RunKeepsAccounts(schema, es);
      CountingRows(Run(schema, es));
      assert es[..0] == es;
      hide CreationsCount;
    } else {
      var ds, e := es[..|es| - 1], es[|es| - 1];
      assert es == ds + [e];
      AuthenticationIsCreation(schema, ds);
      CountingSnoc(schema, ds, e);
      hide AlwaysCount, NoneSuperseded, CreationsCount, Superseded;
      if AlwaysCount(schema, ds) {
        EventOnCounting(schema, ds, e);
      }
    }
  }

  lemma EmptyCounts()
    ensures RowsCount(EMPTY)
  {
  }

  /** In every run a nonempty password that authenticates was given in a creation answered with 1005,
      and the other way round when no INSERT was overtaken. */
  lemma AuthenticationNeedsCreation(schema: Schema, es: seq<Event>, name: string, password: string)
    requires password != ""
    ensures var s := Run(schema, es);
      && (Authenticates(s.T, name, password) ==> Created(s, name, password))
      && (NoneOvertaken(schema, es) ==> (Authenticates(s.T, name, password) <==> Created(s, name, password)))
  {
    NamesStayUnique(schema, es);
    RunKeepsAccounts(schema, es);
    var s := Run(schema, es);
    hide Run, NoneOvertaken;
    assert Stored(s.T, name, password) <==> Created(s, name, password);
    hide Created;
    if Authenticates(s.T, name, password) {
      var id := FindUser(s.T.users, name);
      assert s.T.IsUser(id) && s.T.NameOf(id) == name && s.T.users[id - 1].password == password;
    }
    if UniqueNames(s.T) && Stored(s.T, name, password) {
      var id :| s.T.IsUser(id) && s.T.NameOf(id) == name && s.T.users[id - 1].password == password;
      assert s.T.NameOf(FindUser(s.T.users, name)) == name;
    }
  }
}
