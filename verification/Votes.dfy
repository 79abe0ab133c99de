/** Accounting for votes over every interleaving (source/srv_db.cpp:1059-1137). */
module Votes {
  import opened Text
  import opened Tables
  import opened Requests
  import opened Integrity

  /** A vote whose ballot row is stored but whose UPDATE is still to come, one that raised a score,
      or one whose UPDATE failed or found no contest. */
  datatype Fate = InBetween | Raised(slot: int) | Wasted

  predicate HasFate(th: Thread, c: int, fate: Fate) {
    th.contest == c &&
    match fate
    case InBetween => th.ballot.Pending?
    case Raised(slot) => th.ballot.Counted? && th.slot == slot
    case Wasted => th.ballot.Lost?
  }

  ghost function Ids(threads: map<nat, Thread>, c: int, fate: Fate): set<nat> {
    set t | t in threads && HasFate(threads[t], c, fate)
  }

  ghost function BallotsFor(voted: set<(int, int)>, c: int): set<(int, int)> {
    set v | v in voted && v.1 == c
  }

  ghost function Votes(s: Sys, c: int, fate: Fate): nat {
    |Ids(s.threads, c, fate)|
  }

  function Score(T: Tables, c: int, slot: int): nat {
    if !T.IsContest(c) then 0
    else if slot == 1 then T.ContestRow(c).score1 else T.ContestRow(c).score2
  }

  // ---------- the invariant ----------

  ghost predicate VoteThread(T: Tables, th: Thread) {
    && (th.pc.VoteUpdate? <==> th.ballot.Pending?)
    && (th.pc.VoteUpdate? ==> th.ballot.voter == th.pc.uid)
    && (th.pc.Login? || th.pc.VoteUser? || th.pc.VoteInsert? ==> th.ballot.NoBallot?)
    && (th.pc.VoteInsert? || !th.ballot.NoBallot? ==> th.slot == 1 || th.slot == 2)
    && (th.pc.VoteUser? ==> th.slot == 1 || th.slot == 2)
    && (!th.ballot.NoBallot? ==> (th.ballot.voter, th.contest) in T.voted)
    && (th.ballot.Counted? ==> T.IsContest(th.contest))
  }

  /** Two requests never hold a ballot of the same user in the same contest. */
  ghost predicate DistinctBallots(threads: map<nat, Thread>) {
    forall t, u | t in threads && u in threads && t != u
      && !threads[t].ballot.NoBallot? && !threads[u].ballot.NoBallot?
      && threads[t].contest == threads[u].contest
      :: threads[t].ballot.voter != threads[u].ballot.voter
  }

  ghost predicate Balanced(s: Sys, c: int) {
    && Score(s.T, c, 1) == Votes(s, c, Raised(1))
    && Score(s.T, c, 2) == Votes(s, c, Raised(2))
    && |BallotsFor(s.T.voted, c)| ==
       Votes(s, c, InBetween) + Votes(s, c, Raised(1)) + Votes(s, c, Raised(2)) + Votes(s, c, Wasted)
  }

  ghost predicate VotesKept(s: Sys) {
    && (forall t :: t in s.threads ==> VoteThread(s.T, s.threads[t]))
    && DistinctBallots(s.threads)
    && forall c :: Balanced(s, c)
  }

  // ---------- one statement ----------

  /** The four things a statement can do to the accounts. */
  ghost predicate Accounted(before: Local, after: Local) {
    var T, U := before.T, after.T;
    var was, now := before.th.ballot, after.th.ballot;
    || (now == was && U.voted == T.voted && SameScores(T, U))
    || (was.NoBallot? && now.Pending? && SameScores(T, U)
        && (now.voter, before.th.contest) !in T.voted && U.voted == T.voted + {(now.voter, before.th.contest)})
    || (was.Pending? && now == Counted(was.voter) && U.voted == T.voted && T.IsContest(before.th.contest)
        && forall c, slot | slot == 1 || slot == 2 ::
             Score(U, c, slot) == Score(T, c, slot) + if c == before.th.contest && slot == before.th.slot then 1 else 0)
    || (was.Pending? && now == Lost(was.voter) && U == T)
  }

  ghost predicate SameScores(T: Tables, U: Tables) {
    forall c, slot | slot == 1 || slot == 2 :: Score(U, c, slot) == Score(T, c, slot)
  }

  lemma StatementAccounted(schema: Schema, l: Local, ok: bool, junk: Sight)
    requires VoteThread(l.T, l.th)
    ensures Accounted(l, LocalStep(schema, l, ok, junk))
  {
    var m := LocalStep(schema, l, ok, junk);
    var st := NextStatement(l.th);
    if st.AddVote? {
      assert l.th.pc.VoteUpdate?;
    } else if st.InsertVoted? {
    } else {
      assert m.th.ballot == l.th.ballot && m.T.voted == l.T.voted;
      OtherStatementsKeepScores(schema, l, ok, junk);
    }
  }

  lemma OtherStatementsKeepScores(schema: Schema, l: Local, ok: bool, junk: Sight)
    requires !NextStatement(l.th).AddVote?
    ensures SameScores(l.T, LocalStep(schema, l, ok, junk).T)
  {
    var U := LocalStep(schema, l, ok, junk).T;
    LocalStepGrows(schema, l, ok, junk);
    hide LocalStep;
    forall c, slot | slot == 1 || slot == 2
      ensures Score(U, c, slot) == Score(l.T, c, slot)
    {
      if U.IsContest(c) {
        OtherStatementKeepsRowScores(schema, l, ok, junk, c);
      }
    }
  }

  lemma OtherStatementKeepsRowScores(schema: Schema, l: Local, ok: bool, junk: Sight, c: int)
    requires !NextStatement(l.th).AddVote? && LocalStep(schema, l, ok, junk).T.IsContest(c)
    ensures var row := LocalStep(schema, l, ok, junk).T.ContestRow(c);
      && row.score1 == Score(l.T, c, 1)
      && row.score2 == Score(l.T, c, 2)
  {
  }

  ghost predicate VotePc(pc: Pc) {
    pc.VoteUser? || pc.VoteInsert? || pc.VoteUpdate? || pc.VoteScores? || pc.VoteRetry?
  }

  lemma OtherStatementsStayOutside(schema: Schema, th: Thread, r: Result, junk: Sight)
    requires !VotePc(th.pc) && !th.pc.Login?
    ensures var pc := Resume(schema, th, r, junk); !VotePc(pc) && !pc.Login?
  {
    if th.pc.ImageSight? {
      hide MayUpdate;
    }
  }

  lemma LoginStartsVote(schema: Schema, th: Thread, r: Result, junk: Sight)
    requires th.pc.Login?
    ensures var pc := Resume(schema, th, r, junk);
      !VotePc(pc) || (pc.VoteUser? && (th.slot == 1 || th.slot == 2))
    ensures !Resume(schema, th, r, junk).Login?
  {
    AfterLoginGoesTo(schema, th);
    hide AfterLogin;
  }

  lemma StatementKeepsVoteThread(schema: Schema, l: Local, ok: bool, junk: Sight)
    requires VoteThread(l.T, l.th) && !l.th.pc.Done?
    ensures var m := LocalStep(schema, l, ok, junk); VoteThread(m.T, m.th)
  {
    LocalStepGrows(schema, l, ok, junk);
    var st := NextStatement(l.th);
    var out := Execute(schema, l.T, l.last, st, ok);
    if VotePc(l.th.pc) {
    } else {
      assert !st.AddVote? && !st.InsertVoted?;
      hide Execute;
      if l.th.pc.Login? {
        LoginStartsVote(schema, l.th, out.result, junk);
      } else {
        OtherStatementsStayOutside(schema, l.th, out.result, junk);
      }
      hide Resume, NextStatement;
    }
  }

  // ---------- counting ----------

  /** Replacing one request changes each count by what it leaves and what it joins. */
  lemma IdsUpdate(threads: map<nat, Thread>, t: nat, th: Thread, c: int, fate: Fate)
    ensures |Ids(threads[t := th], c, fate)| + (if t in threads && HasFate(threads[t], c, fate) then 1 else 0) ==
            |Ids(threads, c, fate)| + (if HasFate(th, c, fate) then 1 else 0)
  {
    var before, after := Ids(threads, c, fate), Ids(threads[t := th], c, fate);
    assert before - {t} == after - {t};
    assert |before - {t}| == |before| - (if t in before then 1 else 0);
    assert |after - {t}| == |after| - (if t in after then 1 else 0);
  }

  lemma BallotsUpdate(voted: set<(int, int)>, user: int, c: int, d: int)
    requires (user, d) !in voted
    ensures |BallotsFor(voted + {(user, d)}, c)| == |BallotsFor(voted, c)| + (if c == d then 1 else 0)
  {
    if c == d {
      assert BallotsFor(voted + {(user, d)}, c) == BallotsFor(voted, c) + {(user, d)};
    } else {
      assert BallotsFor(voted + {(user, d)}, c) == BallotsFor(voted, c);
    }
  }

  /** The accounts still balance after one request's statement. */
  lemma PutBalances(s: Sys, t: nat, l: Local, c: int)
    requires VotesKept(s) && t in s.threads && t in s.last
    requires Accounted(s.View(t), l) && l.th.contest == s.threads[t].contest && l.th.slot == s.threads[t].slot
    ensures Balanced(s.Put(t, l), c)
  {
    assert Balanced(s, c) && VoteThread(s.T, s.threads[t]);
    IdsUpdate(s.threads, t, l.th, c, InBetween);
    IdsUpdate(s.threads, t, l.th, c, Raised(1));
    IdsUpdate(s.threads, t, l.th, c, Raised(2));
    IdsUpdate(s.threads, t, l.th, c, Wasted);
    if l.th.ballot.Pending? && s.threads[t].ballot.NoBallot? {
      BallotsUpdate(s.T.voted, l.th.ballot.voter, c, l.th.contest);
    }
  }

  lemma PutDistinct(s: Sys, t: nat, l: Local)
    requires VotesKept(s) && t in s.threads && t in s.last
    requires Accounted(s.View(t), l) && l.th.contest == s.threads[t].contest
    ensures DistinctBallots(s.Put(t, l).threads)
  {
    forall u | u in s.threads && u != t && !s.threads[u].ballot.NoBallot? && !l.th.ballot.NoBallot?
      && s.threads[u].contest == l.th.contest
      ensures s.threads[u].ballot.voter != l.th.ballot.voter
    {
      assert VoteThread(s.T, s.threads[u]) && VoteThread(s.T, s.threads[t]);
      if !s.threads[t].ballot.NoBallot? {
        assert l.th.ballot.voter == s.threads[t].ballot.voter;
      }
    }
  }

  lemma ArrivalBalances(s: Sys, t: nat, req: Request, c: int)
    requires VotesKept(s) && t !in s.threads
    ensures Balanced(s.Put(t, Local(s.T, 0, Begin(s.schema, req))), c)
  {
    var th := Begin(s.schema, req);
    assert Balanced(s, c);
    IdsUpdate(s.threads, t, th, c, InBetween);
    IdsUpdate(s.threads, t, th, c, Raised(1));
    IdsUpdate(s.threads, t, th, c, Raised(2));
    IdsUpdate(s.threads, t, th, c, Wasted);
  }

  lemma SendKeepsVotes(s: Sys, t: nat, ok: bool, junk: Sight)
    requires VotesKept(s) && s.Active(t)
    ensures VotesKept(Step(s, Send(t, ok, junk)))
  {
    var l := LocalStep(s.schema, s.View(t), ok, junk);
    assert l.th.contest == s.threads[t].contest && l.th.slot == s.threads[t].slot;
    StatementAccounted(s.schema, s.View(t), ok, junk);
    StatementKeepsVoteThread(s.schema, s.View(t), ok, junk);
    LocalStepGrows(s.schema, s.View(t), ok, junk);
    hide LocalStep, Balanced, Accounted;
    forall c ensures Balanced(s.Put(t, l), c) { PutBalances(s, t, l, c); }
    PutDistinct(s, t, l);
  }

  lemma BeginsWithoutBallot(schema: Schema, T: Tables, req: Request)
    ensures Begin(schema, req).ballot == NoBallot && VoteThread(T, Begin(schema, req))
  {
  }

  lemma StepKeepsVotes(s: Sys, e: Event)
    requires VotesKept(s)
    ensures VotesKept(Step(s, e))
  {
    hide LocalStep, Balanced, VoteThread;
    if e.Arrive? && e.t !in s.threads && Admissible(e.req) {
      BeginsWithoutBallot(s.schema, s.T, e.req);
      hide Begin;
      forall c ensures Balanced(Step(s, e), c) { ArrivalBalances(s, e.t, e.req, c); }
    } else if e.Send? && s.Active(e.t) {
      SendKeepsVotes(s, e.t, e.ok, e.junk);
    }
  }

  lemma {:induction false} RunKeepsVotes(schema: Schema, es: seq<Event>)
    ensures VotesKept(Run(schema, es))
  {
    if es == [] {
    } else {
      RunKeepsVotes(schema, es[..|es| - 1]);
      StepKeepsVotes(Run(schema, es[..|es| - 1]), es[|es| - 1]);
    }
  }

  // ---------- theorems ----------

  /** Conservation, in every run: the ballots stored for a contest are its two scores, the votes
      between their INSERT and their UPDATE, and the votes whose UPDATE failed or hit no row. */
  lemma VoteConservation(schema: Schema, es: seq<Event>, c: int)
    ensures var s := Run(schema, es);
      |BallotsFor(s.T.voted, c)| ==
      Score(s.T, c, 1) + Score(s.T, c, 2) + Votes(s, c, InBetween) + Votes(s, c, Wasted)
  {
    RunKeepsVotes(schema, es);
    assert Balanced(Run(schema, es), c);
  }

  /** Each score is the number of requests that raised it. */
  lemma ScoreCountsVotes(schema: Schema, es: seq<Event>, c: int, slot: int)
    requires slot == 1 || slot == 2
    ensures var s := Run(schema, es); Score(s.T, c, slot) == Votes(s, c, Raised(slot))
  {
    RunKeepsVotes(schema, es);
    assert Balanced(Run(schema, es), c);
  }

  /** At most one request per user and contest ever raises a score, and only a stored ballot does. */
  lemma OneVotePerUser(schema: Schema, es: seq<Event>, t: nat, u: nat)
    ensures var s := Run(schema, es);
      t in s.threads && u in s.threads && s.threads[t].ballot.Counted? && s.threads[u].ballot.Counted?
      && s.threads[t].ballot.voter == s.threads[u].ballot.voter && s.threads[t].contest == s.threads[u].contest
      ==> t == u && (s.threads[t].ballot.voter, s.threads[t].contest) in s.T.voted
  {
    RunKeepsVotes(schema, es);
  }

  /** The UPDATE of a pending vote for `c` fails at this event. */
  ghost predicate UpdateFails(s: Sys, e: Event, c: int) {
    e.Send? && !e.ok && s.Active(e.t) && s.threads[e.t].pc.VoteUpdate? && s.threads[e.t].contest == c
  }

  ghost predicate UpdatesSucceed(s: Sys, es: seq<Event>, c: int) {
    forall i :: 0 <= i < |es| ==> !UpdateFails(RunFrom(s, es[..i]), es[i], c)
  }

  lemma StepWastesNothing(s: Sys, e: Event, c: int)
    requires VotesKept(s) && s.T.IsContest(c) && !UpdateFails(s, e, c)
    ensures Votes(Step(s, e), c, Wasted) == Votes(s, c, Wasted)
  {
    if e.Arrive? && e.t !in s.threads && Admissible(e.req) {
      IdsUpdate(s.threads, e.t, Begin(s.schema, e.req), c, Wasted);
    } else if e.Send? && s.Active(e.t) {
      var th := s.threads[e.t];
      var l := LocalStep(s.schema, s.View(e.t), e.ok, e.junk);
      assert VoteThread(s.T, th);
      if NextStatement(th).AddVote? {
        assert th.pc.VoteUpdate?;
      }
      assert l.th.contest == th.contest && (l.th.ballot.Lost? ==> th.ballot.Lost? || th.contest != c);
      assert th.ballot.Lost? ==> l.th.ballot.Lost?;
      IdsUpdate(s.threads, e.t, l.th, c, Wasted);
    }
  }

  /** No vote for an existing contest is lost while no UPDATE of a score fails. */
  lemma {:induction false} NoVoteIsLost(schema: Schema, es: seq<Event>, fs: seq<Event>, c: int)
    requires Run(schema, es).T.IsContest(c)
    requires UpdatesSucceed(Run(schema, es), fs, c)
    ensures Votes(RunFrom(Run(schema, es), fs), c, Wasted) == Votes(Run(schema, es), c, Wasted)
  {
    if fs == [] {
    } else {
      var s := Run(schema, es);
      var gs := fs[..|fs| - 1];
      forall i | 0 <= i < |gs| ensures !UpdateFails(RunFrom(s, gs[..i]), gs[i], c) {
        assert gs[..i] == fs[..i];
      }
      NoVoteIsLost(schema, es, gs, c);
      RunAppend(Init(schema), es, gs);
      RunKeepsVotes(schema, es + gs);
      RunGrows(s, gs);
      StepWastesNothing(RunFrom(s, gs), fs[|fs| - 1], c);
    }
  }

  /** A vote request changes the tables only by storing a new ballot or by raising a score. */
  lemma VoteChangesTablesTwice(schema: Schema, l: Local, ok: bool, junk: Sight)
    requires VotePc(l.th.pc) && LocalStep(schema, l, ok, junk).T != l.T
    ensures ok
    ensures (l.th.pc.VoteInsert? && (l.th.pc.uid, l.th.contest) !in l.T.voted) || l.th.pc.VoteUpdate?
  {
  }

  /** A second vote by the same user, whichever of its statements fail, leaves every table as it is;
      when its first SELECT succeeds it is answered with the scores. */
  lemma SecondVoteIsRefused(schema: Schema, l: Local, fails: set<nat>, n: nat, junk: Sight)
    requires l.th.pc.VoteInsert? && (l.th.pc.uid, l.th.contest) in l.T.voted
    ensures var m := Alone(schema, l, fails, n, junk);
      && m.T == l.T
      && m.th.ballot == l.th.ballot
      && m.th.pc == if n + 1 in fails then Refuse(1001)
                    else Done(Board(if l.T.IsContest(l.th.contest)
                                    then Some((Score(l.T, l.th.contest, 1), Score(l.T, l.th.contest, 2)))
                                    else None))
  {
    var l1 := LocalStep(schema, l, n !in fails, junk);
    var l2 := LocalStep(schema, l1, n + 1 !in fails, junk);
    RefusedInsert(schema, l, n !in fails, junk);
    RetriedScores(schema, l1, n + 1 !in fails, junk);
    hide LocalStep, Score;
    assert Alone(schema, l, fails, n, junk) == Alone(schema, l1, fails, n + 1, junk);
    assert Alone(schema, l1, fails, n + 1, junk) == Alone(schema, l2, fails, n + 2, junk);
  }

  lemma RefusedInsert(schema: Schema, l: Local, ok: bool, junk: Sight)
    requires l.th.pc.VoteInsert? && (l.th.pc.uid, l.th.contest) in l.T.voted
    ensures LocalStep(schema, l, ok, junk) == l.(th := l.th.(pc := VoteRetry(l.th.pc.uid)))
  {
  }

  lemma RetriedScores(schema: Schema, l: Local, ok: bool, junk: Sight)
    requires l.th.pc.VoteRetry?
    ensures var c := l.th.contest;
      LocalStep(schema, l, ok, junk) == l.(th := l.th.(pc :=
        if !ok then Refuse(1001)
        else Done(Board(if l.T.IsContest(c) then Some((Score(l.T, c, 1), Score(l.T, c, 2))) else None))))
  {
  }

  /** The scores a SELECT of this event returns for `c`, if it is one and succeeds. */
  ghost function ScoresRead(s: Sys, e: Event, c: int): Option<(nat, nat)> {
    if e.Send? && s.Active(e.t) && NextStatement(s.threads[e.t]) == SelectScores(c) then
      ScoresOf(Execute(s.schema, s.T, s.last[e.t], SelectScores(c), e.ok).result)
    else None
  }

  lemma ScoresReadAreScores(s: Sys, e: Event, c: int)
    requires ScoresRead(s, e, c).Some?
    ensures s.T.IsContest(c) && ScoresRead(s, e, c).value == (Score(s.T, c, 1), Score(s.T, c, 2))
  {
  }

  lemma LaterReadIsNoLower(s: Sys, e: Event, s': Sys, e': Event, c: int)
    requires Grows(s.T, s'.T) && ScoresRead(s, e, c).Some? && ScoresRead(s', e', c).Some?
    ensures var first, second := ScoresRead(s, e, c).value, ScoresRead(s', e', c).value;
      first.0 <= second.0 && first.1 <= second.1
  {
    ScoresReadAreScores(s, e, c);
    ScoresReadAreScores(s', e', c);
    hide ScoresRead;
  }

  /** Scores read later are never lower. */
  lemma ScoresReadNeverFall(schema: Schema, es: seq<Event>, i: nat, j: nat, c: int)
    requires i < j < |es|
    ensures var first, second := ScoresRead(Run(schema, es[..i]), es[i], c), ScoresRead(Run(schema, es[..j]), es[j], c);
      first.Some? && second.Some? ==> first.value.0 <= second.value.0 && first.value.1 <= second.value.1
  {
    hide ScoresRead, Run, Grows;
    var before, between := es[..i], es[i..j];
    assert before + between == es[..j];
    HistoryIsKept(schema, before, between);
    var s, s' := Run(schema, before), Run(schema, es[..j]);
    if ScoresRead(s, es[i], c).Some? && ScoresRead(s', es[j], c).Some? {
      LaterReadIsNoLower(s, es[i], s', es[j], c);
    }
  }
}
