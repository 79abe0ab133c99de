/** Requests served one after another, as runs of the server. */
module SerialRuns {
  import opened Tables
  import opened Requests

  /** The tables after one request is served alone, no statement failing. */
  function Serve(schema: Schema, T: Tables, req: Request): Tables {
    Alone(schema, Local(T, 0, Begin(schema, req)), {}, 0, Sight(false, 0, 0, 0)).T
  }

  function ServeAll(schema: Schema, reqs: seq<Request>): Tables {
    if reqs == [] then EMPTY else Serve(schema, ServeAll(schema, reqs[..|reqs| - 1]), reqs[|reqs| - 1])
  }

  /** A request arrives on a new connection and sends all its statements, none failing. */
  lemma ArrivesAlone(s: Sys, t: nat, req: Request) returns (es: seq<Event>)
    requires t !in s.threads && Admissible(req)
    ensures var junk := Sight(false, 0, 0, 0);
      RunFrom(s, es) == s.Put(t, Alone(s.schema, Local(s.T, 0, Begin(s.schema, req)), {}, 0, junk))
  {
    var l, junk := Local(s.T, 0, Begin(s.schema, req)), Sight(false, 0, 0, 0);
    var arrive, s' := Arrive(t, req), s.Put(t, l);
    assert Step(s, arrive) == s';
    hide Begin, Step, Admissible;
    RunOfOne(s, arrive);
    AloneIsRun(s', t, {}, 0, junk);
    assert s'.View(t) == l;
    var sends := SendsOf(s.schema, l, t, {}, 0, junk);
    hide SendsOf, Alone;
    RunAppend(s, [arrive], sends);
    es := [arrive] + sends;
    PutTwice(s, t, l, Alone(s.schema, l, {}, 0, junk));
  }

  /** Serving requests one after another is a run of the server: each arrives on a connection of its
      own and sends all its statements before the next arrives. */
  lemma {:induction false} ServeAllIsRun(schema: Schema, reqs: seq<Request>) returns (es: seq<Event>)
    requires forall req <- reqs :: Admissible(req)
    ensures var s := Run(schema, es);
      s.T == ServeAll(schema, reqs) && s.schema == schema && forall t :: t in s.threads ==> t < |reqs|
  {
    hide Admissible;
    if reqs == [] {
      es := [];
    } else {
      var before, req := reqs[..|reqs| - 1], reqs[|reqs| - 1];
      assert forall r <- before :: r in reqs;
      var first := ServeAllIsRun(schema, before);
      var more := ArrivesAlone(Run(schema, first), |before|, req);
      hide Alone, Begin;
      RunAppend(Init(schema), first, more);
      hide RunFrom;
      es := first + more;
    }
  }
}
