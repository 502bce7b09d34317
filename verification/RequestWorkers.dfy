/** RequestWorker itself: its fields, changed by the steps of SessionSteps, and the bytes that reach the socket. */
module RequestWorkers {
  import opened Text
  import opened Response
  import opened Connection
  import opened SessionSteps

  /** The bytes of the status sent, if any. */
  function Wire(statuses: seq<Sent>): string {
    if statuses == [] then "" else ExitFrame(statuses[0].status)
  }

  /** What a step adds to the socket. */
  function StepWire(s: State, step: Step): string
    requires Enabled(s, step)
  {
    if s.connected && Closer(s, step).Some? then
      match step
      case ClosesSafely(t) => ExitFrame(WorkerOf(s, t).status)
      case TerminatedHook => ExitFrame(TERMINATED)
      case _ => ExitFrame(SUCCESS)
    else ""
  }

  /** Along a run the socket holds exactly the status frame that the state records. */
  lemma StepWires(s: State, step: Step)
    requires Inv(s) && Enabled(s, step)
    ensures Wire(s.statuses) + StepWire(s, step) == Wire(Next(s, step).statuses)
  {
    StepCloses(s, step);
    hide ExitFrame;
    assert ConnectionInv(s);
    if s.connected && Closer(s, step).Some? {
      assert s.statuses == [];
      assert "" + StepWire(s, step) == StepWire(s, step);
    } else {
      assert Wire(s.statuses) + "" == Wire(s.statuses);
    }
  }

  class RequestWorker {
    var main: MainPc
    var streamFuture: Future
    var invokeFuture: Future
    var streamWorker: WorkerPc
    var invokeWorker: WorkerPc
    var isTerminated: bool
    var conn: ClientConnection?
    const connection: ClientConnection    // the object conn refers to, until it is nulled
    ghost var statuses: seq<Sent>
    ghost var closes: nat
    var input: Input                      // what the client has sent so far, for the stream handler
    var pipe: Pipe
    var streamRan: bool

    ghost function Abs(): State
      reads this
    {
      State(main, streamFuture, invokeFuture, streamWorker, invokeWorker, isTerminated, conn != null, statuses, closes,
            input, pipe, streamRan)
    }

    ghost predicate Valid()
      reads this, connection
    {
      && (conn != null ==> conn == connection)
      && connection.Valid() && !connection.silentExitStatus
      && (connection.closed <==> conn == null)
    }

    constructor (socketOutput: OutputStream, command: bool)
      ensures Valid() && Abs() == Init(command)
      ensures fresh(connection) && connection.socketOutput == socketOutput
    {
      var c := new ClientConnection(socketOutput, false);
      connection, conn := c, c;
      main := Received(command);
      streamFuture, invokeFuture := New, New;
      streamWorker, invokeWorker := NotStarted, NotStarted;
      isTerminated := false;
      statuses, closes := [], 0;
      input, pipe, streamRan := Open, Flows, false;
    }

    /** closeSafely: a failure to send is only logged; conn is nulled in any case. */
    method CloseSafely(exitStatus: int, ghost who: Sender)
      requires Valid()
      modifies `conn, `statuses, `closes, connection, connection.socketOutput
      ensures Valid() && Abs() == Closed(old(Abs()), who, exitStatus)
      ensures connection.socketOutput.sent
           == old(connection.socketOutput.sent) + if old(conn) != null then ExitFrame(exitStatus) else ""
    {
      assert connection.socketOutput.sent + "" == connection.socketOutput.sent;
      hide ExitFrame;
      if conn == null {
        return;
      }
      var sent := conn.SendExit(exitStatus);
      conn.Close();
      conn := null;
      statuses, closes := statuses + [Sent(who, exitStatus)], closes + 1;
    }

    method SetWorker(t: Task, pc: WorkerPc)
      requires Valid()
      modifies `streamWorker, `invokeWorker
      ensures Valid() && Abs() == WithWorker(old(Abs()), t, pc)
    {
      if t.Stream? {
        streamWorker := pc;
      } else {
        invokeWorker := pc;
      }
    }

    /** FutureTask.cancel and the setting of a result: no effect once the future is done. */
    method Settle(t: Task, f: Future)
      requires Valid()
      modifies `streamFuture, `invokeFuture
      ensures Valid()
      ensures Abs() == WithFuture(old(Abs()), t, if FutureOf(old(Abs()), t).New? then f else FutureOf(old(Abs()), t))
    {
      if t.Stream? {
        if streamFuture.New? {
          streamFuture := f;
        }
      } else if invokeFuture.New? {
        invokeFuture := f;
      }
    }

    /** FutureTask.run: a task that is done already is skipped. */
    method StartTask(t: Task)
      requires Valid() && Enabled(Abs(), Starts(t))
      modifies `streamWorker, `invokeWorker, `streamRan
      ensures Valid() && Abs() == Next(old(Abs()), Starts(t))
    {
      var own := if t.Stream? then streamFuture else invokeFuture;
      SetWorker(t, if IsDone(own) then Awaiting else Running);
      if !IsDone(own) && t.Stream? {
        streamRan := true;
      }
    }

    /** run() and handleRequest, one step at a time. */
    method MainGoes()
      requires Valid() && Enabled(Abs(), MainGoesOn)
      modifies this, connection, connection.socketOutput
      ensures Valid() && Abs() == MainStep(old(Abs()))
      ensures connection.socketOutput.sent == old(connection.socketOutput.sent)
           + if old(main) == Received(true) && old(conn) != null then ExitFrame(SUCCESS) else ""
    {
      assert connection.socketOutput.sent + "" == connection.socketOutput.sent;
      hide ExitFrame;
      match main
      case Received(command) =>
        if command {
          CloseSafely(SUCCESS, Main);
          main := Answered;
        } else {
          main, streamWorker := StreamSubmitted, Submitted;
        }
      case StreamSubmitted => main := StreamAssigned;
      case StreamAssigned => main, invokeWorker := InvokeSubmitted, Submitted;
      case InvokeSubmitted => main := InvokeAssigned;
      case InvokeAssigned => main := PoolShutDown;
    }

    /** A pool thread or the hook takes its step. */
    method Perform(step: Step)
      requires Valid() && Enabled(Abs(), step)
      modifies this, connection, connection.socketOutput
      ensures Valid() && Abs() == Next(old(Abs()), step)
      ensures connection.socketOutput.sent == old(connection.socketOutput.sent) + StepWire(old(Abs()), step)
    {
      hide ExitFrame, ExitStatusOf, MayEnd;
      ghost var before := connection.socketOutput.sent;
      assert before + "" == before;
      match step
      case MainGoesOn => MainGoes();
      case InputEnds(outcome) => input := Over(outcome);
      case PipeFills => pipe := Full;
      case PipeDrains => pipe := Flows;
      case PipeBreaks => pipe := Broken;
      case Starts(t) => StartTask(t);
      case RunEnds(t, outcome) =>
        Settle(t, Completed(outcome));
        SetWorker(t, Awaiting);
      case SeesFields(t) => SetWorker(t, Assigned);
      case TakesStatus(t) =>
        SetWorker(t, Decided(ExitStatusOf(if t.Stream? then streamFuture else invokeFuture)));
      case LooksAtOther(t) =>
        var other := if t.Stream? then invokeFuture else streamFuture;
        var status := if t.Stream? then streamWorker.status else invokeWorker.status;
        SetWorker(t, if IsDone(other) then Closing(status) else Cancelling(status));
      case CancelsOther(t) =>
        var status := if t.Stream? then streamWorker.status else invokeWorker.status;
        Settle(Other(t), Cancelled);
        SetWorker(t, Closing(status));
      case ClosesSafely(t) =>
        var status := if t.Stream? then streamWorker.status else invokeWorker.status;
        CloseSafely(status, By(t));
        SetWorker(t, Idle);
      case WorkerExits(t) => SetWorker(t, Exited);
      case TerminatedHook =>
        CloseSafely(TERMINATED, Hook);
        isTerminated := true;
    }

    /** Any interleaving, from the state the worker is in. */
    method RunAll(steps: seq<Step>)
      requires Valid() && Inv(Abs()) && Run(Abs(), steps).Some?
      modifies this, connection, connection.socketOutput
      ensures Valid() && Inv(Abs()) && Run(old(Abs()), steps) == Some(Abs())
      ensures forall base :: old(connection.socketOutput.sent) == base + Wire(old(Abs()).statuses) ==>
                connection.socketOutput.sent == base + Wire(Abs().statuses)
    {
      ghost var start, sent := Abs(), connection.socketOutput.sent;
      ghost var added := "";
      assert steps[0..] == steps;
      assert sent + "" == sent && Wire(start.statuses) + "" == Wire(start.statuses);
      hide Enabled, Next, Inv, Wire, StepWire;
      for i := 0 to |steps|
        invariant Valid() && Inv(Abs())
        invariant Run(start, steps) == Run(Abs(), steps[i..])
        invariant connection.socketOutput.sent == sent + added
        invariant Wire(start.statuses) + added == Wire(Abs().statuses)
      {
        ghost var s := Abs();
        assert steps[i..][1..] == steps[i + 1..];
        StepKeepsInv(s, steps[i]);
        StepWires(s, steps[i]);
        Perform(steps[i]);
        Assoc(sent, added, StepWire(s, steps[i]));
        Assoc(Wire(start.statuses), added, StepWire(s, steps[i]));
        added := added + StepWire(s, steps[i]);
      }
      forall base | sent == base + Wire(start.statuses)
        ensures connection.socketOutput.sent == base + Wire(Abs().statuses)
      {
        Assoc(base, Wire(start.statuses), added);
      }
    }
  }
}
