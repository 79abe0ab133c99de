/** A condition on arrivals alone under which no INSERT of an account is ever overtaken
    (source/srv_db.cpp:91-161). */
module OrderlyRuns {
  import opened Tables
  import opened Requests
  import opened Accounts

  /** A createUser request that has not been answered yet. */
  ghost predicate Creating(th: Thread, name: string) {
    (th.pc.UserCheck? || th.pc.UserInsert?) && th.req.username == name
  }

  /** A createUser request does not arrive while another one for the same name is unanswered. A
      UNIQUE key on user names makes the condition unnecessary. */
  ghost predicate Orderly(s: Sys, e: Event) {
    s.schema.uniqueNames ||
    (e.Arrive? && KindOf(e.req.requestid).CreateUser? ==>
       forall t :: t in s.threads ==> !Creating(s.threads[t], e.req.username))
  }

  ghost predicate OrderlyRun(schema: Schema, es: seq<Event>) {
    forall i :: 0 <= i < |es| ==> Orderly(Run(schema, es[..i]), es[i])
  }

  ghost predicate CreationsApart(s: Sys) {
    && (forall t, u :: t in s.threads && u in s.threads && t != u
          ==> !(Creating(s.threads[t], s.threads[u].req.username) && Creating(s.threads[u], s.threads[u].req.username)))
    && (forall t :: t in s.threads && s.threads[t].pc.UserInsert? ==>
          FindUser(s.T.users, s.threads[t].req.username) == 0)
  }

  ghost predicate NamesKept(s: Sys) {
    UniqueNames(s.T) && (s.schema.uniqueNames || CreationsApart(s))
  }

  lemma StatementOfCreation(schema: Schema, l: Local, ok: bool, junk: Sight)
    requires !l.th.pc.Done?
    ensures var m := LocalStep(schema, l, ok, junk);
      && m.th.req == l.th.req
      && !m.th.pc.UserCheck?
      && (m.th.pc.UserInsert? ==>
            l.th.pc.UserCheck? && m.T == l.T && FindUser(l.T.users, l.th.req.username) == 0)
  {
    var r := Execute(schema, l.T, l.last, NextStatement(l.th), ok).result;
    if !l.th.pc.UserCheck? {
      OnlyChecksLeadToInserts(schema, l.th, r, junk);
      hide Resume, Execute, NextStatement;
    }
  }

  lemma OnlyChecksLeadToInserts(schema: Schema, th: Thread, r: Result, junk: Sight)
    requires !th.pc.UserCheck? && !th.pc.Done?
    ensures var pc := Resume(schema, th, r, junk); !pc.UserCheck? && !pc.UserInsert?
  {
    if th.pc.Login? {
      AfterLoginGoesTo(schema, th);
      hide AfterLogin, MayUpdate;
    } else {
      hide AfterLogin, MayUpdate, UserId, KeyOf, ScoresOf;
    }
  }

  lemma CreationKeepsApart(s: Sys, t: nat, m: Local)
    requires CreationsApart(s) && t in s.threads && m.th.req == s.threads[t].req
    requires m.th.pc.UserCheck? || m.th.pc.UserInsert? ==> s.threads[t].pc.UserCheck? || s.threads[t].pc.UserInsert?
    requires forall u :: (u in s.threads && u != t && s.threads[u].pc.UserInsert?)
               ==> FindUser(m.T.users, s.threads[u].req.username) == 0
    requires m.th.pc.UserInsert? ==> FindUser(m.T.users, m.th.req.username) == 0
    ensures CreationsApart(s.Put(t, m))
  {
  }

  lemma SendKeepsNames(s: Sys, t: nat, ok: bool, junk: Sight)
    requires NamesKept(s) && s.Active(t)
    ensures NamesKept(Step(s, Send(t, ok, junk)))
  {
    var l := s.View(t);
    var m := LocalStep(s.schema, l, ok, junk);
    StatementOnUsers(s.schema, l, ok, junk);
    StatementOfCreation(s.schema, l, ok, junk);
    hide LocalStep;
    var user := AccountOf(l.th.req);
    if m.T.users == l.T.users {
      assert UniqueNames(m.T) by {
        assert forall a :: m.T.IsUser(a) ==> m.T.NameOf(a) == l.T.NameOf(a);
      }
    } else {
      AppendKeepsNamesUnique(l.T, m.T, user);
    }
    if !s.schema.uniqueNames {
      forall u | u in s.threads && u != t && s.threads[u].pc.UserInsert?
        ensures FindUser(m.T.users, s.threads[u].req.username) == 0
      {
        assert Creating(s.threads[u], s.threads[u].req.username);
        if m.T.users != l.T.users {
          assert Creating(s.threads[t], s.threads[t].req.username);
          FindUserAppend(l.T.users, user, s.threads[u].req.username);
        }
      }
      CreationKeepsApart(s, t, m);
    }
  }

  lemma StepKeepsNames(s: Sys, e: Event)
    requires NamesKept(s) && Orderly(s, e)
    ensures NamesKept(Step(s, e))
  {
    if e.Send? && s.Active(e.t) {
      SendKeepsNames(s, e.t, e.ok, e.junk);
    } else if e.Arrive? && e.t !in s.threads && Admissible(e.req) {
      ArrivalKeepsNames(s, e.t, e.req);
    }
    hide LocalStep, Begin, NamesKept;
  }

  lemma ArrivalKeepsNames(s: Sys, t: nat, req: Request)
    requires NamesKept(s) && Orderly(s, Arrive(t, req)) && t !in s.threads
    ensures NamesKept(s.Put(t, Local(s.T, 0, Begin(s.schema, req))))
  {
    BeginsBeforeInsert(s.schema, req);
    hide Begin, KindOf;
  }

  lemma BeginsBeforeInsert(schema: Schema, req: Request)
    ensures var th := Begin(schema, req);
      th.req == req && !th.pc.UserInsert? && (th.pc.UserCheck? ==> KindOf(req.requestid).CreateUser?)
  {
  }

  lemma OrderlyPrefix(schema: Schema, es: seq<Event>)
    requires OrderlyRun(schema, es) && es != []
    ensures OrderlyRun(schema, es[..|es| - 1])
    ensures Orderly(Run(schema, es[..|es| - 1]), es[|es| - 1])
  {
    var ds := es[..|es| - 1];
    forall i | 0 <= i < |ds| ensures Orderly(Run(schema, ds[..i]), ds[i]) {
      assert ds[..i] == es[..i];
    }
  }

  lemma {:induction false} OrderlyRunKeepsNames(schema: Schema, es: seq<Event>)
    requires OrderlyRun(schema, es)
    ensures NamesKept(Run(schema, es))
  {
    if es == [] {
    } else {
      OrderlyPrefix(schema, es);
      OrderlyRunKeepsNames(schema, es[..|es| - 1]);
      StepKeepsNames(Run(schema, es[..|es| - 1]), es[|es| - 1]);
    }
  }

  /** So in an orderly run no INSERT is overtaken, and names are unique. */
  lemma OrderlyRunsOvertakeNobody(schema: Schema, es: seq<Event>)
    requires OrderlyRun(schema, es)
    ensures NoneOvertaken(schema, es) && UniqueNames(Run(schema, es).T)
  {
    OrderlyRunKeepsNames(schema, es);
    NamesStayUnique(schema, es);
  }
}
