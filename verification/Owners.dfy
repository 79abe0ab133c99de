/** Whether the images a slot shows belong to the very user the slot names (source/srv_db.cpp:609-651).
    An update resolves its user name three times; the three answers differ when a second account takes
    the name in between. */
module Owners {
  import opened Tables
  import opened Requests
  import opened Integrity
  import Accounts
  import Slots

  ghost predicate SlotOwned(T: Tables, user: int, image: int, thumb: int) {
    || image == thumb == 0
    || (T.IsImage(image) && T.IsImage(thumb) && T.ImageRow(image).owner == user == T.ImageRow(thumb).owner)
  }

  ghost predicate RowOwned(T: Tables, row: Contest) {
    SlotOwned(T, row.user1, row.image1, row.thumb1) && SlotOwned(T, row.user2, row.image2, row.thumb2)
  }

  /** Every slot is as it was created, or its image and thumbnail belong to its user. */
  ghost predicate SlotsOwned(T: Tables) {
    forall c :: T.IsContest(c) ==> RowOwned(T, T.ContestRow(c))
  }

  /** An effective UPDATE whose two images do not both belong to the user it writes. */
  ghost predicate Stray(s: Sys, e: Event) {
    && e.Send? && e.ok && s.Active(e.t) && s.threads[e.t].pc.SlotUpdate? && s.T.IsContest(s.threads[e.t].contest)
    && var pc := s.threads[e.t].pc;
       !(s.T.IsImage(pc.image) && s.T.IsImage(pc.thumb)
         && s.T.ImageRow(pc.image).owner == pc.uid == s.T.ImageRow(pc.thumb).owner)
  }

  // ---------- one event ----------

  lemma OwnedStays(T: Tables, U: Tables, row: Contest)
    requires RowOwned(T, row) && Grows(T, U)
    ensures RowOwned(U, row)
  {
    assert forall i :: T.IsImage(i) ==> U.IsImage(i) && U.ImageRow(i) == T.ImageRow(i);
  }

  lemma UpdateWrites(schema: Schema, l: Local, junk: Sight)
    requires l.th.pc.SlotUpdate? && l.T.IsContest(l.th.contest) && (l.th.slot == 1 || l.th.slot == 2)
    ensures var U := LocalStep(schema, l, true, junk).T;
      && U.images == l.T.images && U.IsContest(l.th.contest)
      && var was, now := l.T.ContestRow(l.th.contest), U.ContestRow(l.th.contest);
         now == if l.th.slot == 1 then was.(image1 := l.th.pc.image, user1 := l.th.pc.uid, thumb1 := l.th.pc.thumb)
                else was.(image2 := l.th.pc.image, user2 := l.th.pc.uid, thumb2 := l.th.pc.thumb)
  {
  }

  lemma FailureKeepsTables(schema: Schema, l: Local, junk: Sight)
    ensures LocalStep(schema, l, false, junk).T == l.T
  {
  }

  lemma RowStaysOwned(s: Sys, e: Event, c: int)
    requires Good(s) && SlotsOwned(s.T) && !Stray(s, e) && Step(s, e).T.IsContest(c)
    ensures var U := Step(s, e).T; RowOwned(U, U.ContestRow(c))
  {
    StepGrows(s, e);
    hide LocalStep, Begin;
    var U := Step(s, e).T;
    if s.T.IsContest(c) {
      OwnedStays(s.T, U, s.T.ContestRow(c));
    }
    if e.Send? && s.Active(e.t) {
      var l := s.View(e.t);
      assert GoodThread(l.T, l.last, l.th);
      ContestRowAfter(s.schema, l, e.ok, e.junk, c);
      FailureKeepsTables(s.schema, l, e.junk);
    }
  }

  lemma StrayShows(s: Sys, e: Event)
    requires Good(s) && Stray(s, e)
    ensures !SlotsOwned(Step(s, e).T)
  {
    var l := s.View(e.t);
    assert GoodThread(l.T, l.last, l.th);
    UpdateWrites(s.schema, l, e.junk);
    var U := Step(s, e).T;
    assert U == LocalStep(s.schema, l, true, e.junk).T;
    hide Step, LocalStep;
    assert !RowOwned(U, U.ContestRow(l.th.contest));
  }

  lemma StepOnOwners(s: Sys, e: Event)
    requires Good(s) && SlotsOwned(s.T)
    ensures SlotsOwned(Step(s, e).T) <==> !Stray(s, e)
  {
    hide Step, Good, RowOwned, Stray;
    if Stray(s, e) {
      StrayShows(s, e);
    } else {
      var U := Step(s, e).T;
      forall c | U.IsContest(c) ensures RowOwned(U, U.ContestRow(c)) { RowStaysOwned(s, e, c); }
    }
  }

  // ---------- runs ----------

  ghost predicate OwnedAt(schema: Schema, es: seq<Event>, i: nat)
    requires i <= |es|
  {
    SlotsOwned(Run(schema, es[..i]).T)
  }

  ghost predicate StrayAt(schema: Schema, es: seq<Event>, i: nat)
    requires i < |es|
  {
    Stray(Run(schema, es[..i]), es[i])
  }

  ghost predicate AlwaysOwned(schema: Schema, es: seq<Event>) {
    forall i :: 0 <= i <= |es| ==> OwnedAt(schema, es, i)
  }

  ghost predicate NoStray(schema: Schema, es: seq<Event>) {
    forall i :: 0 <= i < |es| ==> !StrayAt(schema, es, i)
  }

  lemma OwnersSnoc(schema: Schema, es: seq<Event>, e: Event)
    ensures AlwaysOwned(schema, es + [e]) <==> AlwaysOwned(schema, es) && SlotsOwned(Run(schema, es + [e]).T)
    ensures NoStray(schema, es + [e]) <==> NoStray(schema, es) && !Stray(Run(schema, es), e)
    ensures AlwaysOwned(schema, es) ==> SlotsOwned(Run(schema, es).T)
  {
    var more := es + [e];
    hide SlotsOwned, Stray, Run;
    forall i | 0 <= i <= |es|
      ensures OwnedAt(schema, more, i) <==> OwnedAt(schema, es, i)
      ensures i < |es| ==> (StrayAt(schema, more, i) <==> StrayAt(schema, es, i))
    {
      assert more[..i] == es[..i];
    }
    assert more[..|es|] == es[..|es|] == es && more[..|more|] == more;
    assert OwnedAt(schema, more, |more|) <==> SlotsOwned(Run(schema, more).T);
    assert OwnedAt(schema, es, |es|) <==> SlotsOwned(Run(schema, es).T);
    assert StrayAt(schema, more, |es|) <==> Stray(Run(schema, es), e);
    hide OwnedAt, StrayAt;
  }

  lemma {:induction false} OwnedIffNoStray(schema: Schema, es: seq<Event>)
    ensures AlwaysOwned(schema, es) <==> NoStray(schema, es)
  {
    if es == [] {
      assert es[..0] == es;
    } else {
      var ds, e := es[..|es| - 1], es[|es| - 1];
      assert es == ds + [e];
      OwnedIffNoStray(schema, ds);
      OwnersSnoc(schema, ds, e);
      RunGood(schema, ds);
      RunSnoc(Init(schema), ds, e);
      hide AlwaysOwned, NoStray, SlotsOwned, Stray, Step, Good, RunFrom;
      if AlwaysOwned(schema, ds) {
        StepOnOwners(Run(schema, ds), e);
      }
    }
  }

  // ---------- what makes an update stray ----------

  /** Between the first and the third lookup of its user name. */
  predicate Resolving(pc: Pc) {
    pc.ImageSight? || pc.ImageOwner? || pc.ImageInsert? || pc.ImageLastId? || pc.ThumbOwner?
  }

  /** This event is a creation, overtaken, of the user name that `t` is resolving. */
  ghost predicate TakesName(s: Sys, e: Event, t: nat) {
    && Accounts.Overtaken(s, e)
    && t in s.threads && Resolving(s.threads[t].pc)
    && s.threads[e.t].req.username == s.threads[t].req.username
  }

  ghost predicate TakesNameAt(schema: Schema, es: seq<Event>, t: nat, i: nat)
    requires i < |es|
  {
    TakesName(Run(schema, es[..i]), es[i], t)
  }

  /** Some overtaken creation took `t`'s user name between `t`'s first and third lookup of it. */
  ghost predicate Taken(schema: Schema, es: seq<Event>, t: nat) {
    exists i :: 0 <= i < |es| && TakesNameAt(schema, es, t, i)
  }

  lemma TakenSnoc(schema: Schema, es: seq<Event>, e: Event, t: nat)
    ensures Taken(schema, es + [e], t) <==> Taken(schema, es, t) || TakesName(Run(schema, es), e, t)
  {
    var more := es + [e];
    hide TakesName, Run;
    forall i | 0 <= i < |es|
      ensures TakesNameAt(schema, more, t, i) <==> TakesNameAt(schema, es, t, i)
    {
      assert more[..i] == es[..i];
    }
    assert more[..|es|] == es;
    assert TakesNameAt(schema, more, t, |es|) <==> TakesName(Run(schema, es), e, t);
    hide TakesNameAt;
  }

  ghost predicate OwnedBy(T: Tables, image: int, uid: int) {
    T.IsImage(image) && T.ImageRow(image).owner == uid
  }

  /** What a request's locals say about whether its name was taken. Up to the third lookup the name
      leads to another account exactly if so; from then on the thumbnail belongs to it exactly if so. */
  ghost predicate Tells(T: Tables, last: int, th: Thread, taken: bool) {
    var id := FindUser(T.users, th.req.username);
    match th.pc
    case Login | ImageUser => !taken
    case ImageSight(uid) => taken <==> id != uid
    case ImageOwner(uid, _) => taken <==> id != uid
    case ImageInsert(uid, _, owner) => (taken <==> id != uid) && (owner == uid || taken)
    case ImageLastId(uid, _) => (taken <==> id != uid) && (OwnedBy(T, last, uid) || taken)
    case ThumbOwner(uid, _, image) => (taken <==> id != uid) && (OwnedBy(T, image, uid) || taken)
    case ThumbInsert(uid, _, image, owner) => (taken <==> owner != uid) && (OwnedBy(T, image, uid) || taken)
    case ThumbLastId(uid, _, image) => (taken <==> !OwnedBy(T, last, uid)) && (OwnedBy(T, image, uid) || taken)
    case SlotUpdate(uid, _, image, thumb) => (taken <==> !OwnedBy(T, thumb, uid)) && (OwnedBy(T, image, uid) || taken)
    case _ => true
  }

  /** The account a resolving request has found carries its name. */
  lemma ResolvingUser(T: Tables, last: int, th: Thread)
    requires GoodThread(T, last, th) && Resolving(th.pc)
    ensures NamedUser(T, th.pc.uid, th.req.username) && FindUser(T.users, th.req.username) != 0
  {
    assert T.users[th.pc.uid - 1].name == th.req.username;
  }

  /** Another connection's event. */
  lemma TellsStable(T: Tables, U: Tables, last: int, th: Thread, taken: bool, now: bool)
    requires GoodThread(T, last, th) && Tells(T, last, th, taken) && Grows(T, U)
    requires Resolving(th.pc) ==>
               var id, id' := FindUser(T.users, th.req.username), FindUser(U.users, th.req.username);
               if now then id' == |U.users| > |T.users| else id' == id
    requires now ==> Resolving(th.pc)
    ensures Tells(U, last, th, taken || now)
  {
    assert forall i :: T.IsImage(i) ==> U.IsImage(i) && U.ImageRow(i) == T.ImageRow(i);
    hide FindUser;
  }

  lemma OthersOnName(s: Sys, e: Event, t: nat)
    requires Good(s) && t in s.threads && Resolving(s.threads[t].pc) && !(e.Send? && e.t == t)
    ensures var name := s.threads[t].req.username;
      var U := Step(s, e).T;
      if TakesName(s, e, t) then FindUser(U.users, name) == |U.users| > |s.T.users|
      else FindUser(U.users, name) == FindUser(s.T.users, name)
  {
    assert GoodThread(s.T, s.last[t], s.threads[t]);
    ResolvingUser(s.T, s.last[t], s.threads[t]);
    hide GoodThread, Resolving, FindUser, LocalStep, Begin;
    if e.Send? && s.Active(e.t) {
      var l := s.View(e.t);
      Accounts.StatementOnUsers(s.schema, l, e.ok, e.junk);
      Accounts.FindUserAppend(s.T.users, Accounts.AccountOf(l.th.req), s.threads[t].req.username);
    }
  }

  lemma OwnLookup(schema: Schema, l: Local, ok: bool, junk: Sight, taken: bool)
    requires GoodThread(l.T, l.last, l.th) && Tells(l.T, l.last, l.th, taken)
    requires l.th.pc.ImageUser? || l.th.pc.ImageOwner? || l.th.pc.ThumbOwner?
    ensures var m := LocalStep(schema, l, ok, junk); Tells(m.T, m.last, m.th, taken)
  {
    hide LocalStep, Execute, FindUser, NamedUser;
    var r := LookupStep(schema, l, ok, junk, l.th.req.username);
  }

  lemma OwnSelect(schema: Schema, l: Local, ok: bool, junk: Sight, taken: bool)
    requires GoodThread(l.T, l.last, l.th) && Tells(l.T, l.last, l.th, taken)
    requires l.th.pc.ImageSight? || l.th.pc.ImageLastId? || l.th.pc.ThumbLastId?
    ensures var m := LocalStep(schema, l, ok, junk); Tells(m.T, m.last, m.th, taken)
  {
    hide LocalStep, Execute, FindUser, MayUpdate;
    var r := SelectStep(schema, l, ok, junk);
  }

  lemma OwnInsert(schema: Schema, l: Local, ok: bool, junk: Sight, taken: bool)
    requires GoodThread(l.T, l.last, l.th) && Tells(l.T, l.last, l.th, taken)
    requires l.th.pc.ImageInsert? || l.th.pc.ThumbInsert?
    ensures var m := LocalStep(schema, l, ok, junk); Tells(m.T, m.last, m.th, taken)
  {
    InsertsImage(schema, l, ok, junk);
    hide LocalStep, FindUser;
  }

  /** An image's INSERT, as far as the owner goes. */
  lemma InsertsImage(schema: Schema, l: Local, ok: bool, junk: Sight)
    requires l.th.pc.ImageInsert? || l.th.pc.ThumbInsert?
    ensures var m := LocalStep(schema, l, ok, junk);
      && m.T.users == l.T.users && m.th.req == l.th.req
      && if !ok then m.th.pc.Done?
         else
           && |m.T.images| == |l.T.images| + 1 && l.T.images <= m.T.images
           && m.T.images[|l.T.images|].owner == l.th.pc.owner && m.last == |m.T.images|
           && m.th.pc == if l.th.pc.ImageInsert? then ImageLastId(l.th.pc.uid, l.th.pc.sight)
                         else ThumbLastId(l.th.pc.uid, l.th.pc.sight, l.th.pc.image)
  {
  }

  lemma OwnLogin(schema: Schema, l: Local, ok: bool, junk: Sight, taken: bool)
    requires l.th.pc.Login? && !taken
    ensures var m := LocalStep(schema, l, ok, junk); Tells(m.T, m.last, m.th, taken)
  {
    AfterLoginGoesTo(schema, l.th);
    hide AfterLogin;
  }

  /** Any step of an updateimage request past its login. */
  predicate ImagePc(pc: Pc) {
    || pc.ImageUser? || Resolving(pc) || pc.ThumbInsert? || pc.ThumbLastId? || pc.SlotUpdate?
  }

  lemma OwnOther(schema: Schema, l: Local, ok: bool, junk: Sight, taken: bool)
    requires !l.th.pc.Login? && !ImagePc(l.th.pc) && !l.th.pc.Done?
    ensures var m := LocalStep(schema, l, ok, junk); Tells(m.T, m.last, m.th, taken)
  {
    StaysOutside(schema, l.th, Execute(schema, l.T, l.last, NextStatement(l.th), ok).result, junk);
    hide Execute, Resume, NextStatement;
  }

  lemma StaysOutside(schema: Schema, th: Thread, r: Result, junk: Sight)
    requires !th.pc.Login? && !ImagePc(th.pc) && !th.pc.Done?
    ensures var pc := Resume(schema, th, r, junk); !pc.Login? && !ImagePc(pc)
  {
  }

  lemma OwnUpdate(schema: Schema, l: Local, ok: bool, junk: Sight)
    requires l.th.pc.SlotUpdate?
    ensures LocalStep(schema, l, ok, junk).th.pc.Done?
  {
  }

  lemma OwnStep(schema: Schema, l: Local, ok: bool, junk: Sight, taken: bool)
    requires GoodThread(l.T, l.last, l.th) && Tells(l.T, l.last, l.th, taken) && !l.th.pc.Done?
    ensures var m := LocalStep(schema, l, ok, junk); Tells(m.T, m.last, m.th, taken)
  {
    hide LocalStep, GoodThread, FindUser;
    match l.th.pc
    case Login => OwnLogin(schema, l, ok, junk, taken);
    case ImageUser | ImageOwner(_, _) | ThumbOwner(_, _, _) => OwnLookup(schema, l, ok, junk, taken);
    case ImageSight(_) | ImageLastId(_, _) | ThumbLastId(_, _, _) => OwnSelect(schema, l, ok, junk, taken);
    case ImageInsert(_, _, _) | ThumbInsert(_, _, _, _) => OwnInsert(schema, l, ok, junk, taken);
    case SlotUpdate(_, _, _, _) => OwnUpdate(schema, l, ok, junk);
    case _ => OwnOther(schema, l, ok, junk, taken);
  }

  ghost predicate TellsOf(s: Sys, t: nat, taken: bool) {
    if t in s.threads && t in s.last then Tells(s.T, s.last[t], s.threads[t], taken) else !taken
  }

  lemma OtherStepTells(s: Sys, e: Event, t: nat, taken: bool)
    requires Good(s) && t in s.threads && TellsOf(s, t, taken) && !(e.Send? && e.t == t)
    ensures TellsOf(Step(s, e), t, taken || TakesName(s, e, t))
  {
    StepGrows(s, e);
    assert GoodThread(s.T, s.last[t], s.threads[t]);
    if Resolving(s.threads[t].pc) {
      OthersOnName(s, e, t);
    }
    hide LocalStep, Begin, Tells, GoodThread, FindUser;
    var s' := Step(s, e);
    assert t in s'.threads && t in s'.last && s'.threads[t] == s.threads[t] && s'.last[t] == s.last[t];
    TellsStable(s.T, s'.T, s.last[t], s.threads[t], taken, TakesName(s, e, t));
  }

  lemma BeginTells(schema: Schema, T: Tables, req: Request)
    ensures Tells(T, 0, Begin(schema, req), false)
  {
  }

  lemma StepTells(s: Sys, e: Event, t: nat, taken: bool)
    requires Good(s) && TellsOf(s, t, taken)
    ensures TellsOf(Step(s, e), t, taken || TakesName(s, e, t))
  {
    hide LocalStep, Begin, Tells, GoodThread;
    if t !in s.threads {
      if e.Arrive? && e.t == t && Admissible(e.req) {
        BeginTells(s.schema, s.T, e.req);
      }
    } else if e.Send? && e.t == t {
      if s.Active(t) {
        assert GoodThread(s.T, s.last[t], s.threads[t]);
        OwnStep(s.schema, s.View(t), e.ok, e.junk, taken);
      }
    } else {
      OtherStepTells(s, e, t, taken);
    }
  }

  lemma {:induction false} RunTells(schema: Schema, es: seq<Event>, t: nat)
    ensures TellsOf(Run(schema, es), t, Taken(schema, es, t))
  {
    if es == [] {
    } else {
      var ds, e := es[..|es| - 1], es[|es| - 1];
      assert es == ds + [e];
      RunTells(schema, ds, t);
      RunGood(schema, ds);
      RunSnoc(Init(schema), ds, e);
      hide Taken, TakesName, TellsOf, Step, Good, RunFrom;
      TakenSnoc(schema, ds, e, t);
      StepTells(Run(schema, ds), e, t, Taken(schema, ds, t));
    }
  }

  /** The UPDATE of a slot of an existing contest takes effect. */
  ghost predicate Updates(s: Sys, e: Event) {
    e.Send? && e.ok && s.Active(e.t) && s.threads[e.t].pc.SlotUpdate? && s.T.IsContest(s.threads[e.t].contest)
  }

  /** In every run: an effective UPDATE writes an image that is not its user's if and only if an
      overtaken creation took the user's name between the request's first and third lookup of it. */
  lemma StrayIffTaken(schema: Schema, es: seq<Event>, e: Event)
    requires Updates(Run(schema, es), e)
    ensures Stray(Run(schema, es), e) <==> Taken(schema, es, e.t)
  {
    RunTells(schema, es, e.t);
    hide Run, Taken;
  }

  ghost predicate UpdatesTakenAt(schema: Schema, es: seq<Event>, i: nat)
    requires i < |es|
  {
    Updates(Run(schema, es[..i]), es[i]) && Taken(schema, es[..i], es[i].t)
  }

  /** Throughout a run every slot shows images of its very own user if and only if no request whose user
      name was taken between its first and third lookup gets to update a slot. */
  lemma SlotsOwnedIff(schema: Schema, es: seq<Event>)
    ensures AlwaysOwned(schema, es) <==> forall i :: 0 <= i < |es| ==> !UpdatesTakenAt(schema, es, i)
  {
    OwnedIffNoStray(schema, es);
    hide Run, Taken, AlwaysOwned;
    forall i | 0 <= i < |es|
      ensures StrayAt(schema, es, i) <==> UpdatesTakenAt(schema, es, i)
    {
      if Updates(Run(schema, es[..i]), es[i]) {
        StrayIffTaken(schema, es[..i], es[i]);
      }
    }
    hide StrayAt, UpdatesTakenAt;
  }

  lemma UniqueNamesNoStray(s: Sys, e: Event)
    requires Good(s) && Accounts.UniqueNames(s.T)
    ensures !Stray(s, e)
  {
    if e.Send? && s.Active(e.t) {
      assert GoodThread(s.T, s.last[e.t], s.threads[e.t]);
    }
  }

  lemma OvertakenPrefix(schema: Schema, es: seq<Event>, i: nat)
    requires Accounts.NoneOvertaken(schema, es) && i <= |es|
    ensures Accounts.NoneOvertaken(schema, es[..i])
  {
    hide Accounts.Overtaken, Run;
    forall j | 0 <= j < i
      ensures !Accounts.OvertakenAt(schema, es[..i], j)
    {
      assert es[..i][..j] == es[..j];
      assert !Accounts.OvertakenAt(schema, es, j);
    }
  }

  /** Only an overtaken creation makes an update go astray. */
  lemma StrayNeedsOvertaking(schema: Schema, es: seq<Event>)
    requires Accounts.NoneOvertaken(schema, es)
    ensures AlwaysOwned(schema, es)
  {
    hide Run, Accounts.NoneOvertaken, Stray, AlwaysOwned;
    forall i | 0 <= i < |es|
      ensures !StrayAt(schema, es, i)
    {
      OvertakenPrefix(schema, es, i);
      Accounts.NamesStayUnique(schema, es[..i]);
      RunGood(schema, es[..i]);
      UniqueNamesNoStray(Run(schema, es[..i]), es[i]);
    }
    OwnedIffNoStray(schema, es);
  }

  // ---------- an update that goes astray ----------

  /** An update in flight whose image is, or is about to be, somebody else's. */
  ghost predicate Astray(T: Tables, last: int, pc: Pc) {
    match pc
    case ImageOwner(uid, _) => true
    case ImageInsert(uid, _, owner) => owner != uid
    case ImageLastId(uid, _) => T.IsImage(last) && T.ImageRow(last).owner != uid
    case ThumbOwner(uid, _, image) => T.IsImage(image) && T.ImageRow(image).owner != uid
    case ThumbInsert(uid, _, image, _) => T.IsImage(image) && T.ImageRow(image).owner != uid
    case ThumbLastId(uid, _, image) => T.IsImage(image) && T.ImageRow(image).owner != uid
    case SlotUpdate(uid, _, image, _) => T.IsImage(image) && T.ImageRow(image).owner != uid
    case _ => false
  }

  lemma AstrayGoesOn(schema: Schema, l: Local, junk: Sight)
    requires GoodThread(l.T, l.last, l.th) && Astray(l.T, l.last, l.th.pc) && !l.th.pc.SlotUpdate?
    requires l.th.slot == 1 || l.th.slot == 2
    requires l.th.pc.ImageOwner? ==> FindUser(l.T.users, l.th.req.username) != l.th.pc.uid
    ensures var m := LocalStep(schema, l, true, junk); Astray(m.T, m.last, m.th.pc)
  {
    Slots.UpdateGoesOn(schema, l, junk);
    LocalStepGrows(schema, l, true, junk);
  }

  /** An update past its check whose user name has since gone to another account, left to run without
      failures, is stray. */
  lemma {:induction false} AstrayLands(s: Sys, t: nat, c: int, slot: int) returns (es: seq<Event>)
    requires Good(s) && t in s.threads && s.T.IsContest(c) && (slot == 1 || slot == 2)
    requires Slots.Heading(s.threads[t], c, slot) && Astray(s.T, s.last[t], s.threads[t].pc)
    requires s.threads[t].pc.ImageOwner? ==> FindUser(s.T.users, s.threads[t].req.username) != s.threads[t].pc.uid
    ensures !SlotsOwned(RunFrom(s, es).T)
    decreases StepsLeft(s.threads[t].pc)
  {
    var e := Send(t, true, Sight(false, 0, 0, 0));
    var s' := Step(s, e);
    RunOfOne(s, e);
    assert GoodThread(s.T, s.last[t], s.threads[t]);
    if s.threads[t].pc.SlotUpdate? {
      StrayShows(s, e);
      es := [e];
    } else {
      StepGood(s, e);
      Slots.UpdateAdvances(s, t, e.junk);
      AstrayGoesOn(s.schema, s.View(t), e.junk);
      assert s'.threads[t] == LocalStep(s.schema, s.View(t), true, e.junk).th;
      assert s'.last[t] == LocalStep(s.schema, s.View(t), true, e.junk).last;
      assert s'.T == LocalStep(s.schema, s.View(t), true, e.junk).T;
      assert !s'.threads[t].pc.ImageOwner? by { NeverImageOwnerAgain(s.schema, s.View(t), e.junk); }
      hide Step, LocalStep, Good, SlotsOwned;
      var rest := AstrayLands(s', t, c, slot);
      RunAppend(s, [e], rest);
      es := [e] + rest;
    }
  }

  lemma NeverImageOwnerAgain(schema: Schema, l: Local, junk: Sight)
    requires Slots.UpdatingUser(l.th.pc) != 0
    ensures !LocalStep(schema, l, true, junk).th.pc.ImageOwner?
  {
  }

  /** So ownership by the slot's own user can fail: an update of an existing contest has passed its check,
      and a creation of its user's name, past its own SELECT, is overtaken before the update's next lookup. */
  lemma UpdateGoesAstray(s: Sys, t: nat, u: nat, c: int, slot: int) returns (es: seq<Event>)
    requires Good(s) && t in s.threads && s.T.IsContest(c) && (slot == 1 || slot == 2)
    requires Slots.Heading(s.threads[t], c, slot) && s.threads[t].pc.ImageOwner?
    requires u != t && s.Active(u) && Accounts.Overtaken(s, Send(u, true, Sight(false, 0, 0, 0)))
    requires s.threads[u].req.username == s.threads[t].req.username
    ensures !SlotsOwned(RunFrom(s, es).T)
  {
    var e := Send(u, true, Sight(false, 0, 0, 0));
    var l, s' := s.View(u), Step(s, e);
    assert GoodThread(s.T, s.last[t], s.threads[t]);
    StepGood(s, e);
    StepGrows(s, e);
    Accounts.StatementOnUsers(s.schema, l, true, e.junk);
    Accounts.FindUserAppend(s.T.users, Accounts.AccountOf(l.th.req), l.th.req.username);
    RunOfOne(s, e);
    assert s'.T.users == s.T.users + [Accounts.AccountOf(l.th.req)] && s'.threads[t] == s.threads[t];
    hide Step, LocalStep, Good, SlotsOwned, FindUser, Accounts.Overtaken;
    var rest := AstrayLands(s', t, c, slot);
    RunAppend(s, [e], rest);
    es := [e] + rest;
  }
}
