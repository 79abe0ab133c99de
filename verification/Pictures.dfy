/** The ids requests are told, the images slots show, and reading an image back. */
module Pictures {
  import opened Text
  import opened Tables
  import opened Requests
  import opened Integrity

  // ---------- ids are a request's own ----------

  /** Size of the table a request of this kind inserts into. */
  function RowsOf(T: Tables, kind: Kind): nat {
    if kind.CreateContest? then |T.contests| else if kind.UpdateImage? then |T.images| else 0
  }

  ghost predicate IdsKept(s: Sys) {
    && (forall t :: t in s.threads ==>
          forall id <- s.threads[t].made :: 1 <= id <= RowsOf(s.T, s.threads[t].kind))
    && (forall t, u :: t in s.threads && u in s.threads && t != u && s.threads[t].kind == s.threads[u].kind
          ==> Disjoint(s.threads[t].made, s.threads[u].made))
  }

  ghost predicate Disjoint(a: seq<int>, b: seq<int>) {
    forall id <- a :: id !in b
  }

  lemma StatementMakesFreshIds(schema: Schema, l: Local, ok: bool, junk: Sight)
    requires KindFits(l.th.kind, l.th.pc)
    ensures var m := LocalStep(schema, l, ok, junk);
      || m.th.made == l.th.made
      || m.th.made == l.th.made + [RowsOf(l.T, l.th.kind) + 1]
    ensures var m := LocalStep(schema, l, ok, junk);
      m.th.made != l.th.made ==> RowsOf(m.T, l.th.kind) == RowsOf(l.T, l.th.kind) + 1
    ensures LocalStep(schema, l, ok, junk).th.kind == l.th.kind
  {
    var st := NextStatement(l.th);
    if st.InsertContest? || st.InsertImage? {
    } else {
      assert LocalStep(schema, l, ok, junk).th.made == l.th.made;
    }
  }

  lemma SendKeepsIds(s: Sys, t: nat, m: Local)
    requires IdsKept(s) && Grows(s.T, m.T) && t in s.threads && m.th.kind == s.threads[t].kind
    requires m.th.made == s.threads[t].made
             || (m.th.made == s.threads[t].made + [RowsOf(s.T, m.th.kind) + 1]
                 && RowsOf(m.T, m.th.kind) == RowsOf(s.T, m.th.kind) + 1)
    ensures IdsKept(s.Put(t, m))
  {
    assert forall kind :: RowsOf(s.T, kind) <= RowsOf(m.T, kind);
    forall u | u in s.threads && u != t && s.threads[u].kind == m.th.kind
      ensures Disjoint(m.th.made, s.threads[u].made) && Disjoint(s.threads[u].made, m.th.made)
    {
      assert Disjoint(s.threads[t].made, s.threads[u].made);
    }
  }

  lemma BeginMakesNothing(schema: Schema, req: Request)
    ensures Begin(schema, req).made == []
  {
  }

  lemma ArrivalKeepsIds(s: Sys, t: nat, req: Request)
    requires IdsKept(s) && t !in s.threads
    ensures IdsKept(s.Put(t, Local(s.T, 0, Begin(s.schema, req))))
  {
    BeginMakesNothing(s.schema, req);
    hide Begin, RowsOf;
  }

  lemma StepKeepsIds(s: Sys, e: Event)
    requires Good(s) && IdsKept(s)
    ensures IdsKept(Step(s, e))
  {
    hide LocalStep, Begin;
    if e.Arrive? && e.t !in s.threads && Admissible(e.req) {
      ArrivalKeepsIds(s, e.t, e.req);
    } else if e.Send? && s.Active(e.t) {
      var l := s.View(e.t);
      assert GoodThread(l.T, l.last, l.th);
      LocalStepGrows(s.schema, l, e.ok, e.junk);
      StatementMakesFreshIds(s.schema, l, e.ok, e.junk);
      hide IdsKept, Good, GoodThread, RowsOf;
      SendKeepsIds(s, e.t, LocalStep(s.schema, l, e.ok, e.junk));
    }
    hide IdsKept;
  }

  lemma {:induction false} RunKeepsIds(schema: Schema, es: seq<Event>)
    ensures IdsKept(Run(schema, es))
  {
    if es == [] {
    } else {
      RunKeepsIds(schema, es[..|es| - 1]);
      RunGood(schema, es[..|es| - 1]);
      StepKeepsIds(Run(schema, es[..|es| - 1]), es[|es| - 1]);
    }
  }

  /** The key createContest reports names the row this request inserted, with its own title and end
      time, and no other request inserted that row; LAST_INSERT_ID() being per connection, no
      interleaving changes this. */
  lemma ReportedKeyIsOwn(schema: Schema, es: seq<Event>, t: nat, u: nat)
    requires var s := Run(schema, es); t in s.threads && s.threads[t].pc.Done? && s.threads[t].pc.answer.ContestKey?
    ensures var s := Run(schema, es);
      var k := s.threads[t].pc.answer.id;
      && s.threads[t].made == [k]
      && s.T.IsContest(k)
      && s.T.ContestRow(k).title == s.threads[t].req.p1
      && s.T.ContestRow(k).endtime == Endtime(s.threads[t].req)
      && AskedFor(s.T, s.threads[t].req, s.T.ContestRow(k).permissions)
      && (u in s.threads && u != t && s.threads[u].kind.CreateContest? ==> k !in s.threads[u].made)
  {
    hide Run;
    RunGood(schema, es);
    RunKeepsIds(schema, es);
    var s := Run(schema, es);
    assert GoodThread(s.T, s.last[t], s.threads[t]);
    if u in s.threads && u != t && s.threads[u].kind.CreateContest? {
      assert Disjoint(s.threads[t].made, s.threads[u].made);
    }
  }

  /** The two ids updateImage is about to write are different rows, inserted by this request alone,
      and hold its own two texts under its own user name. */
  lemma WrittenIdsAreOwn(schema: Schema, es: seq<Event>, t: nat, u: nat)
    requires var s := Run(schema, es); t in s.threads && s.threads[t].pc.SlotUpdate?
    ensures var s := Run(schema, es);
      var th := s.threads[t];
      && th.pc.image != th.pc.thumb
      && OwnImage(s.T, th.pc.image, th.req.username, th.req.p2)
      && OwnImage(s.T, th.pc.thumb, th.req.username, th.req.p4)
      && (u in s.threads && u != t && s.threads[u].kind.UpdateImage? ==>
            th.pc.image !in s.threads[u].made && th.pc.thumb !in s.threads[u].made)
  {
    hide Run;
    RunGood(schema, es);
    RunKeepsIds(schema, es);
    var s := Run(schema, es);
    assert GoodThread(s.T, s.last[t], s.threads[t]);
    if u in s.threads && u != t && s.threads[u].kind.UpdateImage? {
      assert Disjoint(s.threads[t].made, s.threads[u].made);
      assert s.threads[t].pc.image in s.threads[t].made && s.threads[t].pc.thumb in s.threads[t].made;
    }
  }

  // ---------- slots show their user's images ----------

  /** In every run, a slot is as it was created or its image and thumbnail belong to users with the
      name of the slot's user. Module Owners says when they belong to that very user. */
  lemma SlotsShowTheirUsersImages(schema: Schema, es: seq<Event>, c: int)
    requires Run(schema, es).T.IsContest(c)
    ensures var T := Run(schema, es).T;
      var row := T.ContestRow(c);
      GoodSlot(T, row.user1, row.image1, row.thumb1) && GoodSlot(T, row.user2, row.image2, row.thumb2)
  {
    RunGood(schema, es);
    var T := Run(schema, es).T;
    hide Run;
    assert GoodContest(T, T.ContestRow(c));
  }

  // ---------- reading an image back ----------

  function SlotImage(T: Tables, c: int, slot: int): int
    requires T.IsContest(c)
  {
    if slot == 1 then T.ContestRow(c).image1 else T.ContestRow(c).image2
  }

  predicate Shows(T: Tables, c: int, slot: int, text: string) {
    T.IsContest(c) && T.IsImage(SlotImage(T, c, slot)) && T.ImageRow(SlotImage(T, c, slot)).text == text
  }

  /** The UPDATE of this slot takes effect at this event. */
  ghost predicate SetsSlot(s: Sys, e: Event, c: int, slot: int) {
    e.Send? && e.ok && s.Active(e.t) && s.threads[e.t].pc.SlotUpdate?
    && s.threads[e.t].contest == c && s.threads[e.t].slot == slot
  }

  ghost predicate NeverSet(s: Sys, es: seq<Event>, c: int, slot: int) {
    forall i :: 0 <= i < |es| ==> !SetsSlot(RunFrom(s, es[..i]), es[i], c, slot)
  }

  lemma FailureChangesNothing(schema: Schema, l: Local, junk: Sight)
    ensures LocalStep(schema, l, false, junk).T == l.T
  {
  }

  lemma StepKeepsShown(s: Sys, e: Event, c: int, slot: int, text: string)
    requires Good(s) && (slot == 1 || slot == 2)
    requires Shows(s.T, c, slot, text) && !SetsSlot(s, e, c, slot)
    ensures Shows(Step(s, e).T, c, slot, text)
  {
    StepGrows(s, e);
    hide LocalStep, Begin;
    if e.Send? && s.Active(e.t) {
      var l := s.View(e.t);
      assert GoodThread(l.T, l.last, l.th);
      ContestRowAfter(s.schema, l, e.ok, e.junk, c);
      FailureChangesNothing(s.schema, l, e.junk);
    }
  }

  lemma {:induction false} RunKeepsShown(s: Sys, es: seq<Event>, c: int, slot: int, text: string)
    requires Good(s) && (slot == 1 || slot == 2)
    requires Shows(s.T, c, slot, text) && NeverSet(s, es, c, slot)
    ensures Shows(RunFrom(s, es).T, c, slot, text)
  {
    if es != [] {
      var ds := es[..|es| - 1];
      forall i | 0 <= i < |ds| ensures !SetsSlot(RunFrom(s, ds[..i]), ds[i], c, slot) {
        assert ds[..i] == es[..i];
      }
      RunKeepsShown(s, ds, c, slot, text);
      RunFromGood(s, ds);
      StepKeepsShown(RunFrom(s, ds), es[|es| - 1], c, slot, text);
    }
  }

  /** What updateImage's last statement does: it answers 1011 either way, and stores the image exactly
      when the contest exists. */
  lemma SuccessMeansShownIffContest(s: Sys, t: nat, junk: Sight)
    requires Good(s) && s.Active(t) && s.threads[t].pc.SlotUpdate?
    ensures var s' := Step(s, Send(t, true, junk));
      var th := s.threads[t];
      && s'.threads[t].pc == Refuse(1011)
      && if s.T.IsContest(th.contest) then Shows(s'.T, th.contest, th.slot, th.req.p2) else s'.T == s.T
  {
    var th := s.threads[t];
    assert GoodThread(s.T, s.last[t], th);
  }

  lemma ReaderFindsId(s: Sys, r: nat, junk: Sight, c: int, slot: int, text: string)
    requires s.Active(r) && s.threads[r].pc.PictureId? && s.threads[r].contest == c && s.threads[r].slot == slot
    requires Shows(s.T, c, slot, text)
    ensures var s' := Step(s, Send(r, true, junk));
      && s'.T == s.T && s'.Active(r)
      && s'.threads[r].pc == PictureText(SlotImage(s.T, c, slot))
  {
  }

  lemma ReaderFindsText(s: Sys, r: nat, junk: Sight)
    requires s.Active(r) && s.threads[r].pc.PictureText? && s.T.IsImage(s.threads[r].pc.image)
    ensures Step(s, Send(r, true, junk)).threads[r].pc == Done(Picture(s.T.ImageRow(s.threads[r].pc.image).text))
  {
  }

  /** The server after `t` sends its statement and then `fs` runs. */
  function WriteThen(s: Sys, t: nat, junk: Sight, fs: seq<Event>): Sys {
    RunFrom(Step(s, Send(t, true, junk)), fs)
  }

  lemma ReaderAnswers(s: Sys, r: nat, junk: Sight, gs: seq<Event>, c: int, slot: int, text: string)
    requires s.Active(r) && s.threads[r].pc.PictureId? && s.threads[r].contest == c && s.threads[r].slot == slot
    requires Shows(s.T, c, slot, text)
    requires forall e <- gs :: e.t != r
    ensures var s' := Step(WriteThen(s, r, junk, gs), Send(r, true, junk));
      r in s'.threads && s'.threads[r].pc == Done(Picture(text))
  {
    ReaderFindsId(s, r, junk, c, slot, text);
    var s3 := Step(s, Send(r, true, junk));
    OthersLeaveThread(s3, gs, r);
    RunGrows(s3, gs);
    hide LocalStep;
    ReaderFindsText(RunFrom(s3, gs), r, junk);
  }

  lemma UpdatedSlot(s: Sys, t: nat)
    requires Good(s) && s.Active(t) && s.threads[t].pc.SlotUpdate?
    ensures s.threads[t].slot == 1 || s.threads[t].slot == 2
  {
    assert GoodThread(s.T, s.last[t], s.threads[t]);
  }

  /** Read-back, from any reachable state. Once updateImage has set a slot of an existing contest, a
      getImage request whose first SELECT comes before the next UPDATE of that slot answers with
      exactly that text, whatever else runs before, between and after. `t` writes, `r` reads; `fs`
      runs between the write and the first SELECT, `gs` between the two SELECTs. */
  lemma ImageReadsBack(s: Sys, t: nat, fs: seq<Event>, r: nat, gs: seq<Event>, junk: Sight)
    requires Good(s) && s.Active(t) && s.threads[t].pc.SlotUpdate? && s.T.IsContest(s.threads[t].contest)
    requires NeverSet(Step(s, Send(t, true, junk)), fs, s.threads[t].contest, s.threads[t].slot)
    requires var s2 := WriteThen(s, t, junk, fs);
      && s2.Active(r) && s2.threads[r].pc.PictureId?
      && s2.threads[r].contest == s.threads[t].contest && s2.threads[r].slot == s.threads[t].slot
    requires forall e <- gs :: e.t != r
    ensures var s' := Step(WriteThen(WriteThen(s, t, junk, fs), r, junk, gs), Send(r, true, junk));
      r in s'.threads && s'.threads[r].pc == Done(Picture(s.threads[t].req.p2))
  {
    hide LocalStep, Shows;
    var c, slot, text := s.threads[t].contest, s.threads[t].slot, s.threads[t].req.p2;
    StepGood(s, Send(t, true, junk));
    SuccessMeansShownIffContest(s, t, junk);
    UpdatedSlot(s, t);
    hide Step, Good, NeverSet;
    RunKeepsShown(Step(s, Send(t, true, junk)), fs, c, slot, text);
    ReaderAnswers(WriteThen(s, t, junk, fs), r, junk, gs, c, slot, text);
  }
}
