/** The logger (source/logger.cpp): many senders, and one thread that drains the queue to a file. A drain
    pass and the final flush hold the queue's lock, so each is one step among the senders' steps; reading
    the flag `running` before a pass is a step of its own. */
module LogQueue {

  /** More than this many waiting messages are thrown away when a write fails. */
  const LIMIT := 200

  const STOPPED := "Logging thread stopped"

  /** Where the logging thread is: before `run`, about to read the flag, about to drain, about to flush,
      about to write the closing line, returned. */
  datatype Phase = Idle | Checking | Draining | Flushing | Closing | Finished

  /** Everything ever sent, in order; for each message that has left the queue, whether it was written;
      the file; the number of writes attempted; and the two-thread flag `running`. */
  datatype Log = Log(sent: seq<string>, written: seq<bool>, file: seq<string>, attempts: nat,
                     running: bool, phase: Phase)
  {
    function Queue(): seq<string>
      requires |written| <= |sent|
    {
      sent[|written|..]
    }
  }

  const NEW_LOG := Log([], [], [], 0, false, Idle)

  /** The messages at the positions marked true, in order. */
  function Selected(sent: seq<string>, marks: seq<bool>): seq<string>
    requires |marks| <= |sent|
  {
    if marks == [] then []
    else
      var n := |marks| - 1;
      Selected(sent, marks[..n]) + if marks[n] then [sent[n]] else []
  }

  function Falses(n: nat): (s: seq<bool>)
    ensures |s| == n && forall i :: 0 <= i < n ==> !s[i]
  {
    seq(n, _ => false)
  }

  // ---------- the two critical sections ----------

  /** One drain pass: write and pop until the queue is empty or a write fails; on a failure with more
      than LIMIT messages waiting, drop them all. `fails` numbers the writes that fail. */
  function Drain(log: Log, fails: set<nat>): Log
    requires |log.written| <= |log.sent|
    decreases |log.sent| - |log.written|
  {
    if log.Queue() == [] then log
    else if log.attempts !in fails then
      Drain(log.(attempts := log.attempts + 1, file := log.file + [log.Queue()[0]],
                 written := log.written + [true]), fails)
    else if |log.Queue()| > LIMIT then
      log.(attempts := log.attempts + 1, written := log.written + Falses(|log.Queue()|))
    else log.(attempts := log.attempts + 1)
  }

  /** The final flush: every message is popped, written or not. */
  function Flush(log: Log, fails: set<nat>): Log
    requires |log.written| <= |log.sent|
    decreases |log.sent| - |log.written|
  {
    if log.Queue() == [] then log
    else
      var ok := log.attempts !in fails;
      Flush(log.(attempts := log.attempts + 1, written := log.written + [ok],
                 file := if ok then log.file + [log.Queue()[0]] else log.file), fails)
  }

  /** The line after the flush. */
  function Finish(log: Log, fails: set<nat>): Log {
    log.(attempts := log.attempts + 1, running := false, phase := Finished,
         file := if log.attempts !in fails then log.file + [STOPPED] else log.file)
  }

  // ---------- interleavings ----------

  datatype Event = Send(message: string) | Stop | Start | Check | Pass | Last | Close

  function Step(log: Log, e: Event, fails: set<nat>): (next: Log)
    requires |log.written| <= |log.sent|
    ensures |next.written| <= |next.sent|
  {
    match e
    case Send(message) => log.(sent := log.sent + [message])
    case Stop => log.(running := false)
    case Start => if log.phase.Idle? then log.(running := true, phase := Checking) else log
    case Check => if log.phase.Checking? then log.(phase := if log.running then Draining else Flushing) else log
    case Pass => DrainKeeps(log, fails); if log.phase.Draining? then Drain(log, fails).(phase := Checking) else log
    case Last => FlushKeeps(log, fails); if log.phase.Flushing? then Flush(log, fails).(phase := Closing) else log
    case Close => if log.phase.Closing? then Finish(log, fails) else log
  }

  function Run(es: seq<Event>, fails: set<nat>): (log: Log)
    ensures |log.written| <= |log.sent|
  {
    if es == [] then NEW_LOG else Step(Run(es[..|es| - 1], fails), es[|es| - 1], fails)
  }

  // ---------- selections ----------

  lemma SelectedNext(sent: seq<string>, marks: seq<bool>, b: bool)
    requires |marks| < |sent|
    ensures Selected(sent, marks + [b]) == Selected(sent, marks) + if b then [sent[|marks|]] else []
  {
    assert (marks + [b])[..|marks|] == marks;
  }

  lemma {:induction false} SelectedNone(sent: seq<string>, marks: seq<bool>, n: nat)
    requires |marks| + n <= |sent|
    ensures Selected(sent, marks + Falses(n)) == Selected(sent, marks)
  {
    if n == 0 {
      assert marks + Falses(0) == marks;
    } else {
      SelectedNone(sent, marks, n - 1);
      assert (marks + Falses(n))[..|marks| + n - 1] == marks + Falses(n - 1);
    }
  }

  lemma {:induction false} SelectedSentMore(sent: seq<string>, message: string, marks: seq<bool>)
    requires |marks| <= |sent|
    ensures Selected(sent + [message], marks) == Selected(sent, marks)
  {
    if marks != [] {
      SelectedSentMore(sent, message, marks[..|marks| - 1]);
    }
  }

  /** The positions marked true, in order. */
  function Positions(marks: seq<bool>): seq<nat> {
    if marks == [] then []
    else
      var n := |marks| - 1;
      Positions(marks[..n]) + if marks[n] then [n] else []
  }

  /** A selection keeps order and repeats nothing: its positions increase strictly, they are exactly the
      marked ones, and each element is the message sent there. */
  lemma {:induction false} SelectionKeepsOrder(sent: seq<string>, marks: seq<bool>)
    requires |marks| <= |sent|
    ensures var at := Positions(marks);
      && |at| == |Selected(sent, marks)|
      && (forall i :: 0 <= i < |at| ==> at[i] < |marks| && marks[at[i]] && Selected(sent, marks)[i] == sent[at[i]])
      && (forall i, j :: 0 <= i < j < |at| ==> at[i] < at[j])
      && (forall p: nat :: p < |marks| && marks[p] ==> p in at)
  {
    if marks != [] {
      SelectionKeepsOrder(sent, marks[..|marks| - 1]);
    }
  }

  // ---------- invariants ----------

  /** The file is the selection of what was sent that the marks describe. */
  ghost predicate FileMatches(log: Log) {
    |log.written| <= |log.sent| && log.file == Selected(log.sent, log.written)
  }

  /** A drain pass changes nothing but marks, file and write count, keeps earlier marks, leaves at most
      LIMIT messages waiting, and writes what it marks. */
  lemma {:induction false} DrainKeeps(log: Log, fails: set<nat>)
    requires |log.written| <= |log.sent|
    ensures var d := Drain(log, fails);
      && d == log.(written := d.written, file := d.file, attempts := d.attempts)
      && log.written <= d.written && |d.written| <= |d.sent| && |d.Queue()| <= LIMIT && log.file <= d.file
      && (FileMatches(log) ==> FileMatches(d))
    decreases |log.sent| - |log.written|
  {
    if log.Queue() == [] {
    } else if log.attempts !in fails {
      SelectedNext(log.sent, log.written, true);
      DrainKeeps(log.(attempts := log.attempts + 1, file := log.file + [log.Queue()[0]],
        written := log.written + [true]), fails);
    } else {
      SelectedNone(log.sent, log.written, |log.Queue()|);
    }
  }

  lemma {:induction false} FlushKeeps(log: Log, fails: set<nat>)
    requires |log.written| <= |log.sent|
    ensures var d := Flush(log, fails);
      && d == log.(written := d.written, file := d.file, attempts := d.attempts)
      && log.written <= d.written && |d.written| == |d.sent| && log.file <= d.file
      && (FileMatches(log) ==> FileMatches(d))
    decreases |log.sent| - |log.written|
  {
    if log.Queue() != [] {
      var ok := log.attempts !in fails;
      SelectedNext(log.sent, log.written, ok);
      FlushKeeps(log.(attempts := log.attempts + 1, written := log.written + [ok],
                      file := if ok then log.file + [log.Queue()[0]] else log.file), fails);
    }
  }

  /** In every run the file is the selection of the marked messages, followed by the closing line once
      the thread has finished and could write it. */
  ghost predicate Consistent(log: Log) {
    && |log.written| <= |log.sent|
    && var kept := Selected(log.sent, log.written);
       if log.phase.Finished? then log.file == kept || log.file == kept + [STOPPED] else log.file == kept
  }

  lemma {:induction false} RunIsConsistent(es: seq<Event>, fails: set<nat>)
    ensures Consistent(Run(es, fails))
  {
    if es == [] {
    } else {
      var log, e := Run(es[..|es| - 1], fails), es[|es| - 1];
      RunIsConsistent(es[..|es| - 1], fails);
      match e
      case Send(message) => SelectedSentMore(log.sent, message, log.written);
      case Stop =>
      case Start =>
      case Check =>
      case Pass => DrainKeeps(log, fails);
      case Last => FlushKeeps(log, fails);
      case Close =>
    }
  }

  /** The file is an order-preserving selection of the sent messages without repetition, and perhaps
      the closing line. */
  ghost predicate FileInOrder(log: Log) {
    var at := Positions(log.written);
    && |at| <= |log.file| <= |at| + 1
    && (!log.phase.Finished? ==> |log.file| == |at|)
    && (forall i :: 0 <= i < |at| ==> at[i] < |log.sent| && log.file[i] == log.sent[at[i]])
    && (forall i, j :: 0 <= i < j < |at| ==> at[i] < at[j])
  }

  /** Each sent message is written, was dropped, or is still queued at its place. */
  ghost predicate EachAccounted(log: Log) {
    && |log.written| <= |log.sent|
    && forall p: nat :: p < |log.sent| ==> Accounted(log, p)
  }

  ghost predicate Accounted(log: Log, p: nat)
    requires |log.written| <= |log.sent| && p < |log.sent|
  {
    if p < |log.written| then (p in Positions(log.written) <==> log.written[p])
    else p !in Positions(log.written) && log.Queue()[p - |log.written|] == log.sent[p]
  }

  lemma FileIsInOrder(log: Log)
    requires Consistent(log)
    ensures FileInOrder(log)
  {
    SelectionKeepsOrder(log.sent, log.written);
    hide Selected, Positions;
  }

  lemma EachIsAccounted(log: Log)
    requires |log.written| <= |log.sent|
    ensures EachAccounted(log)
  {
    SelectionKeepsOrder(log.sent, log.written);
    hide Selected, Positions;
  }

  /** So it is in every interleaving. */
  lemma EveryMessageIsAccountedFor(es: seq<Event>, fails: set<nat>)
    ensures FileInOrder(Run(es, fails)) && EachAccounted(Run(es, fails))
  {
    RunIsConsistent(es, fails);
    hide Run, FileInOrder, EachAccounted;
    FileIsInOrder(Run(es, fails));
    EachIsAccounted(Run(es, fails));
  }

  lemma StepOnlyAdds(log: Log, e: Event, fails: set<nat>)
    requires |log.written| <= |log.sent|
    ensures var next := Step(log, e, fails);
      log.sent <= next.sent && log.written <= next.written && log.file <= next.file
  {
    DrainKeeps(log, fails);
    FlushKeeps(log, fails);
    hide Drain, Flush;
  }

  /** No event ever changes what was sent, the mark a message once got, or a line of the file. */
  lemma {:induction false} MarksAreFinal(es: seq<Event>, more: seq<Event>, fails: set<nat>)
    ensures var log, later := Run(es, fails), Run(es + more, fails);
      log.sent <= later.sent && log.written <= later.written && log.file <= later.file
  {
    if more == [] {
      assert es + more == es;
    } else {
      var init, e := more[..|more| - 1], more[|more| - 1];
      MarksAreFinal(es, init, fails);
      assert es + more == (es + init) + [e];
      RunSnoc(es + init, e, fails);
      hide Run, Step;
      StepOnlyAdds(Run(es + init, fails), e, fails);
    }
  }

  function Trues(n: nat): (s: seq<bool>)
    ensures |s| == n
  {
    seq(n, _ => true)
  }

  /** What a drain marks: k messages as written, up to the end of the queue or the first write that fails,
      and then n as dropped: all that are left when those are more than 200, and else none. */
  lemma {:induction false} DrainMarks(log: Log, fails: set<nat>) returns (k: nat, n: nat)
    requires |log.written| <= |log.sent|
    ensures var d := Drain(log, fails);
      && d.written == log.written + Trues(k) + Falses(n)
      && (forall a :: log.attempts <= a < log.attempts + k ==> a !in fails)
      && |log.written| + k <= |log.sent|
      && (|log.written| + k < |log.sent| ==> log.attempts + k in fails)
      && n == (if |log.sent| - |log.written| - k > 200 then |log.sent| - |log.written| - k else 0)
    decreases |log.sent| - |log.written|
  {
    if log.Queue() != [] && log.attempts !in fails {
      var next := log.(attempts := log.attempts + 1, file := log.file + [log.Queue()[0]],
                       written := log.written + [true]);
      k, n := DrainMarks(next, fails);
      assert log.written + [true] + Trues(k) == log.written + Trues(k + 1);
      k := k + 1;
    } else {
      k := 0;
      n := if |log.Queue()| > LIMIT then |log.Queue()| else 0;
      assert log.written + Trues(0) + Falses(n) == log.written + Falses(n);
      assert log.written + Falses(0) == log.written;
    }
  }

  /** What the flush marks: each message left as written exactly if its write did not fail. */
  lemma {:induction false} FlushMarks(log: Log, fails: set<nat>, p: nat)
    requires |log.written| <= p < |log.sent|
    ensures var d := Flush(log, fails);
      |d.written| == |d.sent| == |log.sent| && (d.written[p] <==> log.attempts + (p - |log.written|) !in fails)
    decreases |log.sent| - |log.written|
  {
    var ok := log.attempts !in fails;
    var next := log.(attempts := log.attempts + 1, written := log.written + [ok],
                     file := if ok then log.file + [log.Queue()[0]] else log.file);
    FlushKeeps(next, fails);
    if p > |log.written| {
      FlushMarks(next, fails, p);
    } else {
      assert Flush(next, fails).written[p] == next.written[p];
    }
  }

  /** Stopped since the thread was started. */
  function StoppedSinceStart(es: seq<Event>, fails: set<nat>): bool {
    if es == [] then false
    else
      var ds, e := es[..|es| - 1], es[|es| - 1];
      if e.Stop? then true
      else if e.Start? && Run(ds, fails).phase.Idle? then false
      else StoppedSinceStart(ds, fails)
  }

  /** The thread leaves its loop only when stopped since its start, and then at its next look at the flag. */
  lemma {:induction false} LeavesWhenStopped(es: seq<Event>, fails: set<nat>)
    ensures var log := Run(es, fails);
      && (log.phase.Checking? || log.phase.Draining? ==> (log.running <==> !StoppedSinceStart(es, fails)))
      && (log.phase.Flushing? || log.phase.Closing? || log.phase.Finished? ==> StoppedSinceStart(es, fails))
      && (log.phase.Checking? ==>
            Run(es + [Check], fails).phase == if StoppedSinceStart(es, fails) then Flushing else Draining)
  {
    assert (es + [Check])[..|es|] == es;
    if es != [] {
      var ds := es[..|es| - 1];
      LeavesWhenStopped(ds, fails);
      DrainKeeps(Run(ds, fails), fails);
      FlushKeeps(Run(ds, fails), fails);
      hide Drain, Flush;
    }
  }

  /** A drain stops only at the end of the queue or at a write that fails, so without a failed write it
      writes everything that was waiting. */
  lemma {:induction false} DrainGoesOn(log: Log, fails: set<nat>)
    requires |log.written| <= |log.sent|
    ensures var d := Drain(log, fails);
      && (|d.written| == |d.sent| || (d.attempts > log.attempts && d.attempts - 1 in fails))
      && ((forall a :: log.attempts <= a < log.attempts + |log.Queue()| ==> a !in fails) ==>
            d.file == log.file + log.Queue() && |d.written| == |d.sent|)
    decreases |log.sent| - |log.written|
  {
    if log.Queue() != [] && log.attempts !in fails {
      var next := log.(attempts := log.attempts + 1, file := log.file + [log.Queue()[0]],
                       written := log.written + [true]);
      DrainGoesOn(next, fails);
      assert log.Queue() == [log.Queue()[0]] + next.Queue();
    } else if log.Queue() == [] {
      assert log.file + [] == log.file;
    } else {
      assert log.attempts < log.attempts + |log.Queue()|;
    }
  }

  /** After each completed drain pass at most 200 messages wait. */
  lemma PassLeavesFewWaiting(es: seq<Event>, fails: set<nat>)
    requires Run(es, fails).phase.Draining?
    ensures |Run(es + [Pass], fails).Queue()| <= 200
  {
    assert (es + [Pass])[..|es|] == es;
    DrainKeeps(Run(es, fails), fails);
  }

  // ---------- no failed write ----------

  ghost predicate AllTrue(marks: seq<bool>) {
    forall i :: 0 <= i < |marks| ==> marks[i]
  }

  lemma {:induction false} NothingDropped(es: seq<Event>)
    ensures AllTrue(Run(es, {}).written)
  {
    if es == [] {
    } else {
      var log, e := Run(es[..|es| - 1], {}), es[|es| - 1];
      NothingDropped(es[..|es| - 1]);
      if e.Pass? { DrainDropsNothing(log); }
      if e.Last? { FlushDropsNothing(log); }
    }
  }

  lemma {:induction false} DrainDropsNothing(log: Log)
    requires |log.written| <= |log.sent| && AllTrue(log.written)
    ensures AllTrue(Drain(log, {}).written)
    decreases |log.sent| - |log.written|
  {
    if log.Queue() != [] {
      DrainDropsNothing(log.(attempts := log.attempts + 1, file := log.file + [log.Queue()[0]],
        written := log.written + [true]));
    }
  }

  lemma {:induction false} FlushDropsNothing(log: Log)
    requires |log.written| <= |log.sent| && AllTrue(log.written)
    ensures AllTrue(Flush(log, {}).written)
    decreases |log.sent| - |log.written|
  {
    if log.Queue() != [] {
      FlushDropsNothing(log.(attempts := log.attempts + 1, file := log.file + [log.Queue()[0]],
        written := log.written + [true]));
    }
  }

  lemma {:induction false} AllSelected(sent: seq<string>, marks: seq<bool>)
    requires |marks| <= |sent| && AllTrue(marks)
    ensures Selected(sent, marks) == sent[..|marks|]
  {
    if marks != [] {
      var n := |marks| - 1;
      AllSelected(sent, marks[..n]);
      assert sent[..n + 1] == sent[..n] + [sent[n]];
    }
  }

  /** Without a failed write the file is at every moment the oldest messages in order, and the final
      flush makes it everything sent before that flush. */
  lemma NoFailureWritesEverything(es: seq<Event>)
    ensures var log := Run(es, {});
      && (!log.phase.Finished? ==> log.file == log.sent[..|log.written|])
      && (log.phase.Flushing? ==> Run(es + [Last], {}).file == log.sent == Run(es + [Last], {}).sent)
  {
    var log := Run(es, {});
    RunIsConsistent(es, {});
    NothingDropped(es);
    AllSelected(log.sent, log.written);
    FlushKeeps(log, {});
    FlushDropsNothing(log);
    var flushed := Flush(log, {});
    AllSelected(flushed.sent, flushed.written);
    assert (es + [Last])[..|es|] == es;
    hide Flush;
  }

  // ---------- the class ----------

  /** What other threads do around one pass: before the flag is read, and between that and the lock. */
  datatype Turn = Turn(early: seq<Event>, late: seq<Event>)

  predicate OthersOnly(calls: seq<Event>) {
    forall e <- calls :: e.Send? || e.Stop?
  }

  /** The events up to the lock of this turn's critical section. */
  function Opening(turn: Turn): seq<Event> {
    turn.early + [Check] + turn.late
  }

  /** The events of the thread's first passes, among the others' calls. */
  function Rounds(turns: seq<Turn>): seq<Event> {
    if turns == [] then []
    else Rounds(turns[..|turns| - 1]) + Opening(turns[|turns| - 1]) + [Pass]
  }

  lemma OneMoreRound(before: seq<Event>, turns: seq<Turn>, k: nat)
    requires k < |turns|
    ensures before + Rounds(turns[..k]) + turns[k].early + [Check] + turns[k].late + [Pass] ==
            before + Rounds(turns[..k + 1])
  {
    assert turns[..k + 1][..k] == turns[..k];
  }

  /** The shared object. `fails` numbers the writes that fail. */
  class Logger {
    const fails: set<nat>
    var messageList: seq<string>
    var running: bool
    var file: seq<string>
    var attempts: nat
    ghost var sent: seq<string>
    ghost var written: seq<bool>
    ghost var phase: Phase

    ghost predicate Valid() reads this {
      |written| <= |sent| && messageList == sent[|written|..]
    }

    ghost function State(): Log reads this {
      Log(sent, written, file, attempts, running, phase)
    }

    constructor (failing: set<nat>)
      ensures Valid() && State() == NEW_LOG && fails == failing
    {
      fails := failing;
      messageList, running, file, attempts := [], false, [], 0;
      sent, written, phase := [], [], Idle;
    }

    method SendMsg(message: string)
      requires Valid()
      modifies this
      ensures Valid() && State() == Step(old(State()), Send(message), fails) && phase == old(phase)
    {
      messageList := messageList + [message];
      sent := sent + [message];
    }

    method StopRunning()
      requires Valid()
      modifies this`running
      ensures Valid() && State() == Step(old(State()), Stop, fails)
    {
      running := false;
    }

    method WriteMsg(message: string) returns (ok: bool)
      modifies this`file, this`attempts
      ensures ok == (old(attempts) !in fails) && attempts == old(attempts) + 1
      ensures file == if ok then old(file) + [message] else old(file)
    {
      ok := attempts !in fails;
      attempts := attempts + 1;
      if ok {
        file := file + [message];
      }
    }

    /** The thread starts. */
    method Begin()
      requires Valid() && phase.Idle?
      modifies this`running, this`phase
      ensures Valid() && State() == Step(old(State()), Start, fails) && phase.Checking?
    {
      running, phase := true, Checking;
    }

    /** The loop's test of the flag. */
    method KeepRunning() returns (on: bool)
      requires Valid() && phase.Checking?
      modifies this`phase
      ensures Valid() && State() == Step(old(State()), Check, fails)
      ensures on == running && phase == if on then Draining else Flushing
    {
      on := running;
      phase := if on then Draining else Flushing;
    }

    /** The loop of one pass, under the lock. */
    method DrainQueue()
      requires Valid() && phase.Draining?
      modifies this
      ensures Valid() && State() == Step(old(State()), Pass, fails) && phase.Checking?
    {
      ghost var goal := Drain(State(), fails);
      while messageList != []
        invariant Valid() && Drain(State(), fails) == goal
        decreases |messageList|
      {
        var ok := WriteMsg(messageList[0]);
        if !ok {
          if |messageList| > LIMIT {
            DropAll();
          }
          break;
        }
        messageList := messageList[1..];
        written := written + [true];
      }
      phase := Checking;
    }

    /** Empties the queue without writing. */
    method DropAll()
      requires Valid()
      modifies this`messageList, this`written
      ensures Valid() && messageList == [] && written == old(written + Falses(|messageList|))
    {
      ghost var n := |messageList|;
      while messageList != []
        invariant Valid() && |messageList| <= n && written == old(written) + Falses(n - |messageList|)
        decreases |messageList|
      {
        messageList := messageList[1..];
        written := written + [false];
      }
    }

    /** The loop after the thread has been told to stop, under the lock. */
    method FlushQueue()
      requires Valid() && phase.Flushing?
      modifies this
      ensures Valid() && State() == Step(old(State()), Last, fails) && phase.Closing?
    {
      ghost var goal := Flush(State(), fails);
      while messageList != []
        invariant Valid() && Flush(State(), fails) == goal
        decreases |messageList|
      {
        var ok := WriteMsg(messageList[0]);
        messageList := messageList[1..];
        written := written + [ok];
      }
      phase := Closing;
    }

    method WriteLastLine()
      requires Valid() && phase.Closing?
      modifies this
      ensures Valid() && State() == Step(old(State()), Close, fails) && phase.Finished?
    {
      var ok := WriteMsg(STOPPED);
      running, phase := false, Finished;
    }

    /** The logging thread, in any interleaving with other threads' calls: those made `before` it starts,
        those around each pass, and those between the flush and the closing line. The run ends when the
        flag is read as false, or the turns are used up. */
    method RunThread(ghost before: seq<Event>, turns: seq<Turn>, closing: seq<Event>)
      returns (ghost es: seq<Event>, ghost n: nat)
      requires Valid() && phase.Idle? && State() == Run(before, fails)
      requires OthersOnly(closing) && forall turn <- turns :: OthersOnly(turn.early) && OthersOnly(turn.late)
      modifies this
      ensures Valid() && State() == Run(es, fails) && n <= |turns|
      ensures if phase.Finished? then
                n < |turns| && es == before + [Start] + Rounds(turns[..n]) + Opening(turns[n]) +
                [Last] + closing + [Close]
              else phase.Checking? && n == |turns| && es == before + [Start] + Rounds(turns)
    {
      RunSnoc(before, Start, fails);
      assert Rounds(turns[..0]) == [];
      hide Run, Step, Drain, Flush, Rounds, OthersOnly;
      Begin();
      es := before + [Start];
      var on := true;
      n := 0;
      for k := 0 to |turns|
        invariant Valid() && State() == Run(es, fails) && phase.Checking? && on
        invariant n == k && es == before + [Start] + Rounds(turns[..k])
      {
        es := Others(turns[k].early, es);
        RunSnoc(es, Check, fails);
        on := KeepRunning();
        es := es + [Check];
        es := Others(turns[k].late, es);
        if !on {
          break;
        }
        RunSnoc(es, Pass, fails);
        DrainQueue();
        OneMoreRound(before + [Start], turns, k);
        es := es + [Pass];
        n := n + 1;
      }
      if !on {
        es := LastPart(closing, es);
        RegroupEnd(before + [Start] + Rounds(turns[..n]), turns[n], closing);
      } else {
        assert turns[..|turns|] == turns;
      }
    }

    /** What is left of the thread once the flag was read as false. */
    method LastPart(closing: seq<Event>, ghost before: seq<Event>) returns (ghost es: seq<Event>)
      requires Valid() && State() == Run(before, fails) && phase.Flushing? && OthersOnly(closing)
      modifies this
      ensures Valid() && State() == Run(es, fails) && phase.Finished?
      ensures es == before + [Last] + closing + [Close]
    {
      RunSnoc(before, Last, fails);
      hide Run, Step, Flush, OthersOnly;
      FlushQueue();
      es := Others(closing, before + [Last]);
      RunSnoc(es, Close, fails);
      WriteLastLine();
      es := es + [Close];
    }

    /** Other threads' calls, one after another. */
    method Others(calls: seq<Event>, ghost before: seq<Event>) returns (ghost es: seq<Event>)
      requires Valid() && State() == Run(before, fails) && OthersOnly(calls)
      modifies this
      ensures Valid() && State() == Run(es, fails) && phase == old(phase) && es == before + calls
    {
      es := before;
      for i := 0 to |calls|
        invariant Valid() && State() == Run(es, fails) && phase == old(phase) && es == before + calls[..i]
      {
        assert calls[i] in calls;
        RunSnoc(es, calls[i], fails);
        if calls[i].Send? {
          SendMsg(calls[i].message);
        } else {
          StopRunning();
        }
        es := es + [calls[i]];
        assert calls[..i + 1] == calls[..i] + [calls[i]];
      }
      assert calls[..|calls|] == calls;
    }
  }

  lemma RegroupEnd(before: seq<Event>, turn: Turn, closing: seq<Event>)
    ensures before + turn.early + [Check] + turn.late + [Last] + closing + [Close] ==
            before + Opening(turn) + [Last] + closing + [Close]
  {
    assert before + turn.early + [Check] + turn.late == before + Opening(turn);
  }

  lemma RunSnoc(es: seq<Event>, e: Event, fails: set<nat>)
    ensures Run(es + [e], fails) == Step(Run(es, fails), e, fails)
  {
    assert (es + [e])[..|es|] == es;
  }
}
