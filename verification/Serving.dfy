/** A session nobody interferes with, and the reference for what its requests do. */
module Serving {
  import opened Tables
  import opened Requests
  import Operations
  import ServerDb

  /** Nothing is changed by anybody else, and nothing fails. */
  ghost predicate Undisturbed(db: ServerDb.Session)
    reads db
  {
    db.fails == {} && forall n, T :: db.world(n, T) == T
  }

  lemma {:induction false} AmidNobody(schema: Schema, l: Local, world: World, n: nat, junk: Sight)
    requires forall k, T :: world(k, T) == T
    ensures Amid(schema, l, {}, world, n, junk) == Alone(schema, l, {}, n, junk)
    decreases StepsLeft(l.th.pc)
  {
    if !l.th.pc.Done? {
      EachStatementCountsDown(schema, l, true, junk);
      AmidUnfolds(schema, l, {}, world, n, junk);
      AloneUnfolds(schema, l, {}, n, junk);
      hide LocalStep, StepsLeft, Amid, Alone;
      AmidNobody(schema, LocalStep(schema, l, true, junk), world, n + 1, junk);
    }
  }

  /** Where `Ends` of a method's contract holds in such a session, the tables and the answer are those of
      the reference: so it is of Handler.HandleRequest and the methods below it. */
  lemma EndsAsSaid(srvDb: ServerDb.SrvDb, l: Local, req: Request, sent: nat, junk: Sight, answer: Answer)
    requires Undisturbed(srvDb.db) && l.th == Begin(srvDb.db.schema, req)
    requires srvDb.Ends(l, sent, junk, answer)
    ensures var effect := Operations.EffectOf(srvDb.db.schema, l.T, req, junk);
      srvDb.db.All() == effect.T && answer == effect.answer
  {
    AmidNobody(srvDb.db.schema, l, srvDb.db.world, sent, junk);
    Operations.CountIsIrrelevant(srvDb.db.schema, l, sent, 0, junk);
    Operations.ServedAsSaid(srvDb.db.schema, l, req, junk);
    hide Alone, Amid, Begin, Operations.EffectOf;
  }
}
