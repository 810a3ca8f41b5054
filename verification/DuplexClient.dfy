/**
 The duplex gRPC client: flags for operations pending and done, run against a completion queue that
 hands back outstanding tags in any order and with any outcome.
 */
module DuplexClient {
  datatype Op = START | READ | WRITE | WRITES_DONE | FINISH | SHUTDOWN

  datatype OpError = Ok | AlreadyPending | AlreadyDone | IllegalState | Shutdown

  /** What the queue answers when it is asked for the next event. */
  datatype Answer = Event(op: Op, ok: bool) | Timeout | Drained

  /**
   The client and its queue.  `issued` and `calls` record the operations handed to gRPC and the
   calls made to the read callback (true for a message, false for the end of reads).
   */
  datatype State = State(
    done: set<Op>, pending: set<Op>, streamError: bool, readBufValid: bool, hasCallback: bool,
    queue: multiset<Op>, queueClosed: bool, issued: seq<Op>, calls: seq<bool>)
  {
    predicate Requested(op: Op) {
      op in done || op in pending
    }

    /** No more operations may be issued. */
    predicate Closing() {
      Requested(FINISH) || Requested(SHUTDOWN)
    }
  }

  // ----- the operations on values

  /** Operations without a parameter are idempotent. */
  predicate Idempotent(op: Op) {
    op == WRITES_DONE
  }

  function AsyncError(s: State, op: Op): OpError {
    if Idempotent(op) && op in s.done then AlreadyDone
    else if op in s.pending then AlreadyPending
    else if s.Requested(SHUTDOWN) then Shutdown
    else if s.Requested(FINISH) then IllegalState
    else Ok
  }

  function Issue(s: State, op: Op): State {
    s.(done := s.done - {op}, pending := s.pending + {op}, queue := s.queue + multiset{op}, issued := s.issued + [op])
  }

  function Async(s: State, op: Op): State {
    if AsyncError(s, op) == Ok then Issue(s, op) else s
  }

  function NextRead(s: State): State {
    Async(s.(readBufValid := false), READ)
  }

  function ReadHandled(s: State, ok: bool): State {
    if s.hasCallback then NextRead(s.(calls := s.calls + [ok])) else s.(readBufValid := ok)
  }

  /** First part of an event: a failure asks for the end of the stream. */
  function Failed(s: State, ok: bool): State {
    if ok then s else Async(s, FINISH).(streamError := true)
  }

  /** Second part: the tag is handed back and the operation is done. */
  function Completed(s: State, op: Op): State {
    s.(queue := s.queue - multiset{op}, pending := s.pending - {op}, done := s.done + {op})
  }

  function Processed(s: State, op: Op, ok: bool): State {
    var s' := Completed(Failed(s, ok), op);
    if op == READ then ReadHandled(s', ok) else s'
  }

  function Answered(s: State, a: Answer): State {
    match a
    case Event(op, ok) => Processed(s, op, ok)
    case Drained => s.(done := s.done + {SHUTDOWN})
    case Timeout => s
  }

  function ShutDown(s: State): State {
    if s.Requested(SHUTDOWN) then s else s.(pending := s.pending + {SHUTDOWN}, queueClosed := true)
  }

  function Started(hasCallback: bool): State {
    NextRead(State({}, {START}, false, false, hasCallback, multiset{START}, false, [START], []))
  }

  /** The queue hands out only what is outstanding, and is drained only when closed and empty. */
  predicate Possible(s: State, a: Answer) {
    match a
    case Event(op, _) => op in s.queue
    case Drained => s.queueClosed && s.queue == multiset{}
    case Timeout => true
  }

  // ----- the client

  class Client {
    var done: set<Op>
    var pending: set<Op>
    var streamError: bool
    var readBufValid: bool
    const hasCallback: bool
    var queue: multiset<Op>
    var queueClosed: bool
    ghost var issued: seq<Op>
    ghost var calls: seq<bool>

    ghost function View(): State
      reads this
    {
      State(done, pending, streamError, readBufValid, hasCallback, queue, queueClosed, issued, calls)
    }

    constructor (hasCallback: bool)
      ensures View() == Started(hasCallback)
    {
      this.hasCallback := hasCallback;
      done, pending, streamError, readBufValid := {}, {START}, false, false;
      queue, queueClosed, issued, calls := multiset{START}, false, [START], [];
      new;
      ReadNext();
    }

    method DoAsync(op: Op, idempotent: bool) returns (e: OpError)
      requires idempotent == Idempotent(op)
      modifies this
      ensures e == AsyncError(old(View()), op) && View() == Async(old(View()), op)
    {
      if idempotent && op in done {
        return AlreadyDone;
      }
      if op in pending {
        return AlreadyPending;
      }
      if SHUTDOWN in done || SHUTDOWN in pending {
        return OpError.Shutdown;
      }
      if FINISH in done || FINISH in pending {
        return IllegalState;
      }
      done := done - {op};
      pending := pending + {op};
      queue, issued := queue + multiset{op}, issued + [op];
      return Ok;
    }

    method WriteAsync() returns (e: OpError)
      modifies this
      ensures e == AsyncError(old(View()), WRITE) && View() == Async(old(View()), WRITE)
    {
      e := DoAsync(WRITE, false);
    }

    method WritesDoneAsync() returns (e: OpError)
      modifies this
      ensures e == AsyncError(old(View()), WRITES_DONE) && View() == Async(old(View()), WRITES_DONE)
    {
      e := DoAsync(WRITES_DONE, true);
    }

    method FinishAsync() returns (e: OpError)
      modifies this
      ensures e == AsyncError(old(View()), FINISH) && View() == Async(old(View()), FINISH)
    {
      e := DoAsync(FINISH, false);
    }

    method ReadNext()
      modifies this
      ensures View() == NextRead(old(View()))
    {
      readBufValid := false;
      var _ := DoAsync(READ, false);
    }

    /** The end of a read without a callback, after the poll: takes the message if there is one. */
    method TakeRead() returns (taken: bool)
      requires !hasCallback && READ in done
      modifies this
      ensures taken <==> old(readBufValid)
      ensures View() == if taken then NextRead(old(View())) else old(View())
    {
      if !readBufValid {
        return false;
      }
      ReadNext();
      return true;
    }

    method RequestShutdown() returns (e: OpError)
      modifies this
      ensures View() == ShutDown(old(View()))
      ensures e == if SHUTDOWN in old(done) then AlreadyDone
                   else if SHUTDOWN in old(pending) then AlreadyPending
                   else Ok
    {
      if SHUTDOWN in done {
        return AlreadyDone;
      }
      if SHUTDOWN in pending {
        return AlreadyPending;
      }
      pending := pending + {SHUTDOWN};
      queueClosed := true;
      return Ok;
    }

    method HandleRead(ok: bool)
      modifies this
      ensures View() == ReadHandled(old(View()), ok)
    {
      if hasCallback {
        calls := calls + [ok];
        ReadNext();
      } else {
        readBufValid := ok;
      }
    }

    method FailStream()
      modifies this
      ensures View() == Failed(old(View()), false)
    {
      hide Async;
      var _ := FinishAsync();
      streamError := true;
    }

    method CompleteOp(op: Op)
      modifies this
      ensures View() == Completed(old(View()), op)
    {
      queue, pending, done := queue - multiset{op}, pending - {op}, done + {op};
    }

    /** A failure first asks for the end of the stream. */
    method ProcessEvent(op: Op, ok: bool)
      modifies this
      ensures View() == Processed(old(View()), op, ok)
    {
      hide Async, ReadHandled, Completed;
      if !ok {
        FailStream();
      }
      CompleteOp(op);
      if op == READ {
        HandleRead(ok);
      }
    }

    /**
     The completion queue: any outstanding tag with any outcome, a timeout, or the end.  At most
     `patience` more events arrive before the deadline.
     */
    method AsyncNext(patience: nat) returns (a: Answer)
      ensures Possible(View(), a) && (patience == 0 ==> !a.Event?)
    {
      a := Timeout;
      if {
        case patience > 0 && queue != multiset{} =>
          var op, ok :| op in queue && ok in {true, false};
          a := Event(op, ok);
        case queueClosed && queue == multiset{} =>
          a := Drained;
        case true =>
      }
    }

    method ProcessSingle(patience: nat) returns (a: Answer)
      modifies this
      ensures Possible(old(View()), a) && (patience == 0 ==> !a.Event?) && View() == Answered(old(View()), a)
    {
      a := AsyncNext(patience);
      match a
      case Event(op, ok) =>
        ProcessEvent(op, ok);
      case Drained =>
        done := done + {SHUTDOWN};
      case Timeout =>
    }

    /**
     An operation and the wait for its completion.  The wait takes answers from the queue up to the
     first that is no event or is the event of the operation, and that one decides the result.
     */
    method DoSync(op: Op, patience: nat) returns (r: SyncResult, ghost answers: seq<Answer>)
      requires op in {WRITE, WRITES_DONE, FINISH} && Inv(View())
      modifies this
      ensures Inv(View())
      ensures var e := AsyncError(old(View()), op);
              if e == Ok || (e == AlreadyPending && op != WRITE)
              then Waited(Async(old(View()), op), op, answers) && r == Outcome(answers[|answers| - 1])
                   && View() == Played(Async(old(View()), op), answers)
              else r == Refused(e) && View() == old(View())
      ensures r == Success ==> op in done && op !in pending
      ensures r == Error ==> op in done && op !in pending && streamError
      ensures r == QueueEnded ==> SHUTDOWN in done && queue == multiset{}
    {
      hide Inv, Async, Answered, Possible, AsyncError;
      answers := [];
      ghost var start := Async(View(), op);
      var e := DoAsync(op, Idempotent(op));
      StepKeepsInv(old(View()), Request(op));
      RefusedChangesNothing(old(View()), op);
      if op != WRITE && e == AlreadyPending {
        e := Ok;
      }
      if e != Ok {
        return Refused(e), [];
      }
      var left := patience;
      while true
        invariant Inv(View()) && View() == Played(start, answers) && Waiting(start, op, answers)
        decreases left
      {
        hide Waiting, Played;
        ghost var before := View();
        var a := ProcessSingle(left);
        StepKeepsInv(before, Next(a));
        AnswerPlayed(start, op, answers, a);
        DrainedIsDone(before, a);
        answers := answers + [a];
        if !a.Event? {
          return Outcome(a), answers;
        }
        EventIsOutstanding(before, a);
        EventCompletes(before, a.op, a.ok);
        if a.op == op {
          return Outcome(a), answers;
        }
        left := left - 1;
      }
    }

    /** The destructor: shuts down and drains the queue, for as long as it has events. */
    method Destroy()
      requires Inv(View())
      modifies this
      ensures Inv(View()) && queueClosed
      ensures issued == old(issued) && queue <= old(queue)
    {
      hide Core, ReadsOn, Answered, ShutDown;
      var _ := RequestShutdown();
      StepKeepsInv(old(View()), Stop);
      ShutDownStays(old(View()));
      var more := true;
      while more
        invariant Inv(View()) && queueClosed
        invariant issued == old(issued) && queue <= old(queue)
        decreases |queue|, more
      {
        ghost var before := View();
        var a := ProcessSingle(|queue|);
        StepKeepsInv(before, Next(a));
        ClosedIsClosing(before);
        ClosingIssuesNothing(before, Next(a));
        StaysClosed(before, a);
        more := a.Event?;
      }
    }
  }

  datatype SyncResult = Success | Error | TimedOut | QueueEnded | Refused(error: OpError)

  function Outcome(a: Answer): SyncResult {
    match a
    case Event(_, ok) => if ok then Success else Error
    case Drained => QueueEnded
    case Timeout => TimedOut
  }

  function Played(s: State, answers: seq<Answer>): State {
    if answers == [] then s else Answered(Played(s, answers[..|answers| - 1]), answers[|answers| - 1])
  }

  /** All possible, and all events of other operations. */
  ghost predicate Waiting(s: State, op: Op, answers: seq<Answer>) {
    forall i :: 0 <= i < |answers| ==>
      Possible(Played(s, answers[..i]), answers[i]) && answers[i].Event? && answers[i].op != op
  }

  /** The wait for `op` ends with the last answer and not before. */
  ghost predicate Waited(s: State, op: Op, answers: seq<Answer>) {
    answers != [] &&
    var n := |answers| - 1;
    && Waiting(s, op, answers[..n])
    && Possible(Played(s, answers[..n]), answers[n]) && (answers[n].Event? ==> answers[n].op == op)
  }

  lemma PlayedOneMore(s: State, answers: seq<Answer>, a: Answer)
    ensures Played(s, answers + [a]) == Answered(Played(s, answers), a)
  {
    hide Answered;
    assert (answers + [a])[..|answers|] == answers;
  }

  lemma AnswerPlayed(s: State, op: Op, answers: seq<Answer>, a: Answer)
    requires Waiting(s, op, answers) && Possible(Played(s, answers), a)
    ensures Played(s, answers + [a]) == Answered(Played(s, answers), a)
    ensures if a.Event? && a.op != op then Waiting(s, op, answers + [a]) else Waited(s, op, answers + [a])
  {
    hide Possible, Answered, Played;
    PlayedOneMore(s, answers, a);
    var longer := answers + [a];
    assert longer[..|answers|] == answers;
    forall i | 0 <= i < |answers| ensures longer[..i] == answers[..i] && longer[i] == answers[i] {
    }
  }

  lemma EventIsOutstanding(s: State, a: Answer)
    requires Possible(s, a)
    ensures a.Event? ==> a.op in s.queue
  {
  }

  lemma DrainedIsDone(s: State, a: Answer)
    requires Possible(s, a)
    ensures a.Drained? ==> SHUTDOWN in Answered(s, a).done && Answered(s, a).queue == multiset{}
  {
  }

  // ----- every run

  datatype Step = Request(op: Op) | Take | Stop | Next(answer: Answer)

  predicate Enabled(s: State, step: Step) {
    match step
    case Request(op) => op in {WRITE, WRITES_DONE, FINISH}
    case Take => !s.hasCallback && READ in s.done && s.readBufValid
    case Stop => true
    case Next(a) => Possible(s, a)
  }

  function Apply(s: State, step: Step): State {
    match step
    case Request(op) => Async(s, op)
    case Take => NextRead(s)
    case Stop => ShutDown(s)
    case Next(a) => Answered(s, a)
  }

  predicate EndsReads(s: State) {
    s.calls != [] && !s.calls[|s.calls| - 1]
  }

  predicate Inv(s: State) {
    Core(s) && ReadsOn(s)
  }

  predicate Core(s: State) {
    && QueueMatchesFlags(s)
    && IssuedOnce(s)
    && (s.streamError ==> s.Closing())
    && EndOfReadsIsLast(s)
  }

  /** Until the end is asked for, a read is outstanding or, without a callback, a message is waiting. */
  predicate ReadsOn(s: State) {
    !s.Closing() ==> READ in s.pending || (!s.hasCallback && READ in s.done && s.readBufValid)
  }

  /** An operation is pending exactly when one tag for it is outstanding, and then not done. */
  predicate QueueMatchesFlags(s: State) {
    && (forall op :: op != SHUTDOWN ==> s.queue[op] == if op in s.pending then 1 else 0)
    && s.queue[SHUTDOWN] == 0
    && (forall op :: op in s.pending && op in s.done ==> op == SHUTDOWN)
    && (s.queueClosed <==> SHUTDOWN in s.pending)
    && (SHUTDOWN in s.done ==> SHUTDOWN in s.pending && s.queue == multiset{})
  }

  /** FINISH and WRITES_DONE are issued once if requested, never otherwise; FINISH comes last. */
  predicate IssuedOnce(s: State) {
    && multiset(s.issued)[FINISH] == (if s.Requested(FINISH) then 1 else 0)
    && multiset(s.issued)[WRITES_DONE] == (if s.Requested(WRITES_DONE) then 1 else 0)
    && multiset(s.issued)[START] == 1
    && (s.Requested(FINISH) ==> s.issued != [] && s.issued[|s.issued| - 1] == FINISH)
  }

  /** The end of reads is reported at most once and after every message; then no read is outstanding. */
  predicate EndOfReadsIsLast(s: State) {
    && (forall i :: 0 <= i < |s.calls| - 1 ==> s.calls[i])
    && (EndsReads(s) ==> s.Closing() && READ !in s.pending)
    && (!s.hasCallback ==> s.calls == [])
  }

  // ----- the parts of a step

  lemma IssueKeepsFlags(s: State, op: Op)
    requires QueueMatchesFlags(s) && op in {READ, WRITE, WRITES_DONE, FINISH} && AsyncError(s, op) == Ok
    ensures QueueMatchesFlags(Issue(s, op))
  {
  }

  lemma IssueKeepsOnce(s: State, op: Op)
    requires IssuedOnce(s) && op in {READ, WRITE, WRITES_DONE, FINISH} && !s.Requested(FINISH)
    requires op == WRITES_DONE ==> !s.Requested(op)
    ensures IssuedOnce(Issue(s, op))
  {
    var s' := Issue(s, op);
    assert multiset(s'.issued) == multiset(s.issued) + multiset{op};
    assert forall x :: x != op ==> (s'.Requested(x) <==> s.Requested(x));
    hide State.Requested;
    assert s'.Requested(op) by { IssueRequests(s, op); }
  }

  lemma IssueRequests(s: State, op: Op)
    ensures Issue(s, op).Requested(op)
  {
  }

  lemma IssueKeepsEnd(s: State, op: Op)
    requires EndOfReadsIsLast(s) && !s.Closing()
    ensures EndOfReadsIsLast(Issue(s, op))
  {
  }

  lemma IssueKeepsCore(s: State, op: Op)
    requires Core(s) && op in {READ, WRITE, WRITES_DONE, FINISH} && AsyncError(s, op) == Ok
    ensures Core(Issue(s, op))
  {
    hide QueueMatchesFlags, IssuedOnce, EndOfReadsIsLast;
    IssueKeepsFlags(s, op);
    IssueKeepsOnce(s, op);
    IssueKeepsEnd(s, op);
  }

  lemma AsyncKeepsCore(s: State, op: Op)
    requires Core(s) && op in {READ, WRITE, WRITES_DONE, FINISH}
    ensures Core(Async(s, op))
    ensures s.Closing() ==> Async(s, op) == s
    ensures op == FINISH ==> Async(s, op).Closing()
  {
    hide Core, Issue;
    if AsyncError(s, op) == Ok {
      IssueKeepsCore(s, op);
      FinishIsRequested(s);
    }
  }

  lemma FinishIsRequested(s: State)
    ensures Issue(s, FINISH).Closing()
  {
  }

  lemma NextReadKeepsCore(s: State)
    requires Core(s)
    ensures Core(NextRead(s))
    ensures s.Closing() ==> NextRead(s) == s.(readBufValid := false)
  {
    BufferIsFree(s, false);
    AsyncKeepsCore(s.(readBufValid := false), READ);
  }

  lemma BufferIsFree(s: State, valid: bool)
    requires Core(s)
    ensures Core(s.(readBufValid := valid))
  {
  }

  lemma FailedKeepsCore(s: State, ok: bool)
    requires Core(s)
    ensures Core(Failed(s, ok)) && (!ok ==> Failed(s, ok).Closing())
    ensures s.Closing() ==> Failed(s, ok) == s.(streamError := s.streamError || !ok)
  {
    hide Async, Core;
    AsyncKeepsCore(s, FINISH);
    if !ok {
      ErrorIsFree(Async(s, FINISH));
    }
  }

  lemma ErrorIsFree(s: State)
    requires Core(s) && s.Closing()
    ensures Core(s.(streamError := true)) && s.(streamError := true).Closing()
  {
  }

  lemma CompletedFlags(s: State, op: Op)
    requires QueueMatchesFlags(s) && op in s.queue
    ensures QueueMatchesFlags(Completed(s, op)) && op != SHUTDOWN && op in s.pending
    ensures forall x :: Completed(s, op).Requested(x) <==> s.Requested(x)
  {
    assert op != SHUTDOWN && op in s.pending;
    var s' := Completed(s, op);
    forall x ensures s'.queue[x] == if x == op then s.queue[x] - 1 else s.queue[x] {
    }
  }

  lemma CompletedKeepsOnce(s: State, op: Op)
    requires IssuedOnce(s) && forall x :: Completed(s, op).Requested(x) <==> s.Requested(x)
    ensures IssuedOnce(Completed(s, op))
  {
    hide State.Requested;
  }

  lemma CompletedKeepsCore(s: State, op: Op)
    requires Core(s) && op in s.queue
    ensures Core(Completed(s, op)) && op != SHUTDOWN && op in s.pending
    ensures s.Closing() ==> Completed(s, op).Closing()
    ensures op == READ ==> !EndsReads(s) && READ !in Completed(s, op).pending
  {
    hide QueueMatchesFlags, IssuedOnce, State.Requested;
    CompletedFlags(s, op);
    CompletedKeepsOnce(s, op);
  }

  lemma ReadHandledKeepsCore(s: State, ok: bool)
    requires Core(s) && !EndsReads(s) && READ !in s.pending && (!ok ==> s.Closing())
    ensures Core(ReadHandled(s, ok))
    ensures s.Closing() ==> var s' := ReadHandled(s, ok);
                            s'.Closing() && s'.issued == s.issued && s'.queue == s.queue
  {
    if s.hasCallback {
      var s' := s.(calls := s.calls + [ok]);
      assert QueueMatchesFlags(s') && IssuedOnce(s');
      assert forall i :: 0 <= i < |s.calls| ==> s.calls[i];
      assert Core(s');
      hide Core;
      NextReadKeepsCore(s');
      hide NextRead;
    } else {
      BufferIsFree(s, ok);
    }
  }

  lemma EventKeepsCore(s: State, op: Op, ok: bool)
    requires Core(s) && op in s.queue
    ensures Core(Processed(s, op, ok))
    ensures s.Closing() ==> var s' := Processed(s, op, ok);
                            s'.Closing() && s'.issued == s.issued && s'.queue == s.queue - multiset{op}
  {
    FailedKeepsCore(s, ok);
    TagStays(s, ok, op);
    CompletedKeepsCore(Failed(s, ok), op);
    hide Core, Processed, Failed, ReadHandled;
    if op == READ {
      ReadHandledKeepsCore(Completed(Failed(s, ok), op), ok);
    }
  }

  lemma TagStays(s: State, ok: bool, op: Op)
    requires op in s.queue
    ensures op in Failed(s, ok).queue
    ensures s.calls == Failed(s, ok).calls
  {
  }

  lemma DrainedKeepsCore(s: State)
    requires Core(s) && Possible(s, Drained)
    ensures Core(Answered(s, Drained)) && (s.Closing() ==> Answered(s, Drained).Closing())
  {
  }

  lemma ShutDownKeepsCore(s: State)
    requires Core(s)
    ensures Core(ShutDown(s)) && ShutDown(s).Closing()
  {
  }

  lemma ShutDownStays(s: State)
    requires Core(s)
    ensures ShutDown(s).queueClosed && ShutDown(s).issued == s.issued && ShutDown(s).queue == s.queue
  {
  }

  lemma ClosedIsClosing(s: State)
    requires Core(s) && s.queueClosed
    ensures s.Closing()
  {
  }

  lemma AsyncLeavesOpen(s: State, op: Op)
    ensures Async(s, op).queueClosed == s.queueClosed
  {
  }

  /** Nothing reopens the queue. */
  lemma StaysClosed(s: State, a: Answer)
    ensures Answered(s, a).queueClosed == s.queueClosed
  {
    hide Async;
    if a.Event? {
      AsyncLeavesOpen(s, FINISH);
      var s' := Completed(Failed(s, a.ok), a.op);
      AsyncLeavesOpen(s'.(calls := s'.calls + [a.ok], readBufValid := false), READ);
    }
  }

  lemma RefusedChangesNothing(s: State, op: Op)
    ensures AsyncError(s, op) != Ok ==> Async(s, op) == s
  {
  }

  /** An event of an operation other than a read leaves that operation done; a failure leaves the error flag. */
  lemma EventCompletes(s: State, op: Op, ok: bool)
    requires op in s.queue
    ensures var s' := Answered(s, Event(op, ok));
            (op != READ ==> op in s'.done && op !in s'.pending) && (!ok ==> s'.streamError)
  {
    hide AsyncError;
  }

  // ----- steps and runs

  lemma StepKeepsCore(s: State, step: Step)
    requires Core(s) && Enabled(s, step)
    ensures Core(Apply(s, step))
  {
    match step
    case Request(op) => AsyncKeepsCore(s, op);
    case Take => NextReadKeepsCore(s);
    case Stop => ShutDownKeepsCore(s);
    case Next(a) =>
      match a
      case Event(op, ok) => EventKeepsCore(s, op, ok);
      case Drained => DrainedKeepsCore(s);
      case Timeout =>
  }

  /** The next read is issued unless the end is asked for. */
  lemma NextReadReadsOn(s: State)
    requires READ !in s.pending
    ensures ReadsOn(NextRead(s)) && (s.Closing() ==> NextRead(s).Closing())
  {
  }

  lemma FailedStaysClosing(s: State, ok: bool)
    ensures !ok ==> Failed(s, ok).Closing()
    ensures s.Closing() ==> Failed(s, ok).Closing()
    ensures ok ==> Failed(s, ok) == s
  {
  }

  lemma EventReadsOn(s: State, op: Op, ok: bool)
    requires Core(s) && ReadsOn(s) && op in s.queue
    ensures ReadsOn(Processed(s, op, ok))
  {
    hide Core, Failed, Async;
    FailedKeepsCore(s, ok);
    FailedStaysClosing(s, ok);
    TagStays(s, ok, op);
    CompletedKeepsCore(Failed(s, ok), op);
    if op == READ {
      NextReadReadsOn(Completed(Failed(s, ok), op).(calls := s.calls + [ok]));
    }
  }

  lemma StepReadsOn(s: State, step: Step)
    requires Core(s) && ReadsOn(s) && Enabled(s, step)
    ensures ReadsOn(Apply(s, step))
  {
    match step
    case Request(op) =>
    case Take => NextReadReadsOn(s);
    case Stop =>
    case Next(a) =>
      match a
      case Event(op, ok) => EventReadsOn(s, op, ok);
      case Drained =>
      case Timeout =>
  }

  lemma StepKeepsInv(s: State, step: Step)
    requires Inv(s) && Enabled(s, step)
    ensures Inv(Apply(s, step))
  {
    hide Core, ReadsOn, Apply, Enabled;
    StepKeepsCore(s, step);
    StepReadsOn(s, step);
  }

  /** Exactly when a request is issued, what that does, and which error each refusal gives. */
  lemma RequestOutcome(s: State, op: Op)
    requires Core(s) && op in {WRITE, WRITES_DONE, FINISH}
    ensures AsyncError(s, op) == Ok <==>
            op !in s.pending && !(op == WRITES_DONE && op in s.done) && !s.Closing()
    ensures AsyncError(s, op) == AlreadyDone <==> op == WRITES_DONE && op in s.done
    ensures AsyncError(s, op) == AlreadyPending <==> op in s.pending
    ensures AsyncError(s, op) == OpError.Shutdown ==> s.Requested(SHUTDOWN)
    ensures AsyncError(s, op) == IllegalState ==> s.Requested(FINISH) && !s.Requested(SHUTDOWN)
    ensures var s' := Async(s, op);
            if AsyncError(s, op) == Ok
            then && op in s'.pending && op !in s'.done
                 && s'.queue == s.queue + multiset{op} && s'.issued == s.issued + [op]
            else s' == s
  {
  }

  /** Once the end is requested, a step issues nothing, the end stays requested, and an event shrinks the queue. */
  lemma ClosingIssuesNothing(s: State, step: Step)
    requires Core(s) && Enabled(s, step) && s.Closing()
    ensures var s' := Apply(s, step);
            s'.Closing() && s'.issued == s.issued && s'.queue <= s.queue
    ensures |Apply(s, step).queue| == |s.queue| - if step.Next? && step.answer.Event? then 1 else 0
  {
    match step
    case Request(op) => AsyncKeepsCore(s, op);
    case Take => NextReadKeepsCore(s);
    case Stop => ShutDownKeepsCore(s);
    case Next(a) =>
      match a
      case Event(op, ok) => EventKeepsCore(s, op, ok);
      case Drained => DrainedKeepsCore(s);
      case Timeout =>
  }

  lemma StartedInv(hasCallback: bool)
    ensures Inv(Started(hasCallback))
  {
    var s := State({}, {START}, false, false, hasCallback, multiset{START}, false, [START], []);
    assert Core(s);
    NextReadKeepsCore(s);
    NextReadReadsOn(s);
  }

  function StateAfter(hasCallback: bool, steps: seq<Step>): State {
    if steps == [] then Started(hasCallback)
    else Apply(StateAfter(hasCallback, steps[..|steps| - 1]), steps[|steps| - 1])
  }

  predicate Runnable(hasCallback: bool, steps: seq<Step>) {
    forall i :: 0 <= i < |steps| ==> Enabled(StateAfter(hasCallback, steps[..i]), steps[i])
  }

  /** Every reachable state satisfies the invariant. */
  lemma {:induction false} ReachableInv(hasCallback: bool, steps: seq<Step>)
    requires Runnable(hasCallback, steps)
    ensures Inv(StateAfter(hasCallback, steps))
  {
    hide Inv, Enabled, Apply;
    if steps == [] {
      StartedInv(hasCallback);
    } else {
      var n := |steps| - 1;
      RunnablePrefix(hasCallback, steps, n);
      ReachableInv(hasCallback, steps[..n]);
      StepKeepsInv(StateAfter(hasCallback, steps[..n]), steps[n]);
    }
  }

  lemma RunnablePrefix(hasCallback: bool, steps: seq<Step>, n: nat)
    requires Runnable(hasCallback, steps) && n <= |steps|
    ensures Runnable(hasCallback, steps[..n])
  {
    hide Enabled, StateAfter;
    forall i | 0 <= i < n ensures Enabled(StateAfter(hasCallback, steps[..n][..i]), steps[..n][i]) {
      assert steps[..n][..i] == steps[..i];
    }
  }

  /**
   From the moment FINISH or shutdown is requested, a run of any length issues nothing more, and
   the queue only shrinks: by one tag for every event.
   */
  lemma {:induction false} NothingIssuedAfterClosing(hasCallback: bool, steps: seq<Step>, n: nat)
    requires Runnable(hasCallback, steps) && n <= |steps| && StateAfter(hasCallback, steps[..n]).Closing()
    ensures var s, s' := StateAfter(hasCallback, steps[..n]), StateAfter(hasCallback, steps);
            s'.Closing() && s'.issued == s.issued && |s'.queue| == |s.queue| - Events(steps[n..])
    decreases |steps|
  {
    hide Core, ReadsOn, Enabled, Apply, StateAfter, Runnable;
    if n == |steps| {
      assert steps[..n] == steps;
    } else {
      var m := |steps| - 1;
      RunnablePrefix(hasCallback, steps, m);
      assert steps[..m][..n] == steps[..n];
      NothingIssuedAfterClosing(hasCallback, steps[..m], n);
      ReachableInv(hasCallback, steps[..m]);
      LastStep(hasCallback, steps);
      ClosingIssuesNothing(StateAfter(hasCallback, steps[..m]), steps[m]);
      assert steps[n..][..m - n] == steps[..m][n..];
    }
  }

  lemma LastStep(hasCallback: bool, steps: seq<Step>)
    requires Runnable(hasCallback, steps) && steps != []
    ensures var s, step := StateAfter(hasCallback, steps[..|steps| - 1]), steps[|steps| - 1];
            Enabled(s, step) && StateAfter(hasCallback, steps) == Apply(s, step)
  {
    hide Enabled, Apply;
  }

  /** How many of the steps are events. */
  function Events(steps: seq<Step>): nat {
    if steps == [] then 0
    else Events(steps[..|steps| - 1]) + if steps[|steps| - 1].Next? && steps[|steps| - 1].answer.Event? then 1 else 0
  }

  // ----- what a reader gets

  /** The outcomes of the reads, in the order of their events. */
  function ReadOutcomes(steps: seq<Step>): seq<bool> {
    if steps == [] then []
    else
      var step, before := steps[|steps| - 1], ReadOutcomes(steps[..|steps| - 1]);
      if step.Next? && step.answer.Event? && step.answer.op == READ then before + [step.answer.ok] else before
  }

  lemma AsyncKeepsReads(s: State, op: Op)
    ensures Async(s, op).calls == s.calls && Async(s, op).readBufValid == s.readBufValid
    ensures Async(s, op).hasCallback == s.hasCallback
  {
  }

  lemma StepReads(s: State, step: Step)
    ensures var s' := Apply(s, step);
            && s'.hasCallback == s.hasCallback
            && (if step.Next? && step.answer.Event? && step.answer.op == READ
                then && s'.calls == (if s.hasCallback then s.calls + [step.answer.ok] else s.calls)
                     && (!s.hasCallback ==> s'.readBufValid == step.answer.ok)
                else && s'.calls == s.calls
                     && s'.readBufValid == (s.readBufValid && !step.Take?))
  {
    hide Async;
    match step
    case Request(op) => AsyncKeepsReads(s, op);
    case Take => AsyncKeepsReads(s.(readBufValid := false), READ);
    case Stop =>
    case Next(a) =>
      if a.Event? {
        AsyncKeepsReads(s, FINISH);
        var s' := Completed(Failed(s, a.ok), a.op);
        AsyncKeepsReads(s'.(calls := s'.calls + [a.ok], readBufValid := false), READ);
      }
  }

  lemma {:induction false} CallbackIsConstant(hasCallback: bool, steps: seq<Step>)
    ensures StateAfter(hasCallback, steps).hasCallback == hasCallback
  {
    hide Apply, NextRead;
    if steps == [] {
      AsyncKeepsReads(State({}, {START}, false, false, hasCallback, multiset{START}, false, [START], []), READ);
      StartedReads(hasCallback);
    } else {
      CallbackIsConstant(hasCallback, steps[..|steps| - 1]);
      StepReads(StateAfter(hasCallback, steps[..|steps| - 1]), steps[|steps| - 1]);
    }
  }

  lemma StartedReads(hasCallback: bool)
    ensures var s := Started(hasCallback); s.hasCallback == hasCallback && s.calls == [] && !s.readBufValid
  {
  }

  /** The callback is called once for every read that completes, in order, with its outcome. */
  lemma {:induction false} CallbackHearsEveryRead(hasCallback: bool, steps: seq<Step>)
    ensures StateAfter(hasCallback, steps).calls == if hasCallback then ReadOutcomes(steps) else []
  {
    hide Apply, Started;
    if steps == [] {
      StartedReads(hasCallback);
    } else {
      var n := |steps| - 1;
      CallbackHearsEveryRead(hasCallback, steps[..n]);
      CallbackIsConstant(hasCallback, steps[..n]);
      StepReads(StateAfter(hasCallback, steps[..n]), steps[n]);
    }
  }

  /** The last read succeeded and its message was not taken since. */
  predicate MessageWaits(steps: seq<Step>) {
    steps != [] &&
    var step := steps[|steps| - 1];
    if step.Next? && step.answer.Event? && step.answer.op == READ then step.answer.ok
    else !step.Take? && MessageWaits(steps[..|steps| - 1])
  }

  /** Without a callback the buffer holds a message exactly while one waits to be taken. */
  lemma {:induction false} BufferHoldsTheMessage(steps: seq<Step>)
    ensures StateAfter(false, steps).readBufValid <==> MessageWaits(steps)
  {
    hide Apply, Started;
    if steps == [] {
      StartedReads(false);
    } else {
      var n := |steps| - 1;
      BufferHoldsTheMessage(steps[..n]);
      CallbackIsConstant(false, steps[..n]);
      StepReads(StateAfter(false, steps[..n]), steps[n]);
    }
  }
}
