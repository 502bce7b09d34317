/** A session from its handlers to the client's exit status. */
module EndToEnd {
  import opened Text
  import opened Sockets
  import opened Response
  import S = SessionSteps
  import opened RequestWorkers
  import opened ClientSession
  import opened ResponseRoundTrip
  import StdinPath
  import Request
  import opened Headers

  /**
   A whole session: the script's writes reach the socket, the handlers end in any order until nothing is left to do,
   and the C client, whose socket splits the bytes at will, prints exactly the writes and returns the status of
   the handler that entered closeSafely first.
   */
  method WholeSession(writes: seq<Output>, steps: seq<S.Step>, picks: nat -> nat, broken: bool,
                      garbage: seq<Record>)
    returns (out: string, err: string, end: End)
    requires AllInt32(writes) && AllSized(garbage) && |garbage| == MAX_HEADER
    requires S.Run(S.Init(false), steps).Some? && S.Stuck(S.Run(S.Init(false), steps).value)
    requires Int32(S.ExitStatusOf(S.Run(S.Init(false), steps).value.streamFuture))
    requires Int32(S.ExitStatusOf(S.Run(S.Init(false), steps).value.invokeFuture))
    ensures out == Bodies(writes, Out) && err == Bodies(writes, Err)
    ensures var s := S.Run(S.Init(false), steps).value;
            var closer := S.FirstCloser(S.Init(false), steps);
            && s.terminated && s.closes == 1 && closer.Some? && closer.value.By?
            && end == Returned(S.ExitStatusOf(S.FutureOf(s, closer.value.task)))
    ensures var s := S.Run(S.Init(false), steps).value;
            var future := S.FutureOf(s, S.FirstCloser(S.Init(false), steps).value.task);
            && (future == S.Cancelled || future == S.Completed(S.Interruption) ==> end == Returned(1))
            && (future == S.Completed(S.Finished) ==> end == Returned(0))
            && (future == S.Completed(S.OtherThrowable) ==> end == Returned(-1))
            && (forall n :: future == S.Completed(S.SystemExit(n)) || future == S.Completed(S.GServError(n)) ==>
                  end == Returned(n))
  {
    StatusNumbers();
    hide Demultiplexed, Frames, ExitFrame, Bodies, S.Run, S.ExitStatusOf, AllInt32, AllSized;
    NothingSent();
    var output := new OutputStream();
    var worker := new RequestWorker(output, false);
    WriteAll(output, writes);
    ghost var base := output.sent;
    assert base == Frames(writes) && base + Wire([]) == base;
    S.InitInv(false);
    worker.RunAll(steps);
    ghost var s := worker.Abs();
    S.EverySessionEnds(false, steps, s);
    ghost var first := SessionStatus(steps, s);
    ghost var status := S.ExitStatusOf(S.FutureOf(s, first));
    assert output.sent == Frames(writes) + ExitFrame(status) + "";
    var socket := new Socket(output.sent, picks, broken);
    var console := new Console();
    ResponseDemultiplexed(writes, status, "", garbage);
    end := StartSession(socket, console, garbage);
    out, err := console.out, console.err;
  }

  lemma NothingSent()
    ensures Frames([]) == "" && Wire([]) == ""
  {
  }

  /** The numbers of ExitStatus. */
  lemma StatusNumbers()
    ensures S.ExitStatusOf(S.Cancelled) == S.ExitStatusOf(S.Completed(S.Interruption)) == 1
    ensures S.ExitStatusOf(S.Completed(S.Finished)) == 0 && S.ExitStatusOf(S.Completed(S.OtherThrowable)) == -1
    ensures forall n :: S.ExitStatusOf(S.Completed(S.SystemExit(n))) == n
    ensures forall n :: S.ExitStatusOf(S.Completed(S.GServError(n))) == n
  {
  }

  /** How StreamRequestHandler.run ends as a task: it throws, or it logs an error of socket or pipe and returns. */
  function OutcomeOf(end: StdinPath.HandlerEnd): (outcome: S.Outcome)
    ensures S.StreamOutcome(outcome)
  {
    match end
    case ByClientRequest => S.Interruption
    case ByInvalidRequest => S.Interruption
    case ByEndOfStream => S.Interruption
    case ByNegativeSize => S.OtherThrowable
    case ByIOError => S.Finished
    case ByPipeError => S.Finished
    case ByClosedConnection => S.OtherThrowable
  }

  /**
   What the user's input does to a running script: whatever was typed before, an interrupt and likewise a stdin that is
   merely closed let the stream handler fail with an interruption, which cancels the script; the client returns
   INTERRUPTED after whatever the script wrote.
   */
  lemma ClosedStdinCancelsScript(chunks: seq<string>, t: StdinPath.Terminator, w: StdinPath.World,
                                 writes: seq<Output>, records: seq<Record>)
    returns (steps: seq<S.Step>, s: S.State)
    requires StdinPath.Typed(chunks) && StdinPath.AllArrive(chunks, w, 0) && !t.HalfClosed? && !w.gone(|chunks|)
    requires AllInt32(writes) && AllSized(records) && |records| == MAX_HEADER
    ensures var input := StdinPath.StdinFrames(chunks) + StdinPath.TerminatorText(t);
            s.input == S.Over(OutcomeOf(StdinPath.Handled(input, false, w, 0).end))
    ensures S.Reaches(false, steps, s) && s.invokeFuture == S.Cancelled
    ensures Demultiplexed(Frames(writes) + Wire(s.statuses) + "", records)
         == Session(Bodies(writes, Out), Bodies(writes, Err), Returned(S.INTERRUPTED), "")
  {
    hide StdinPath.Handled, StdinPath.TerminatorText, StdinPath.StdinFrames, S.Reaches, Demultiplexed, Frames, Bodies,
      ExitFrame;
    StdinPath.StdinForwarded(chunks, t, w, 0);
    steps, s := S.InputCancelsScript(S.Interruption);
    ResponseDemultiplexed(writes, S.INTERRUPTED, "", records);
  }

  /**
   While the client sends nothing of the kind, and the stream handler did begin and is neither left waiting for room in
   the pipe nor fails in it, the client's status is the script's own, at the end of every session.
   */
  lemma QuietSessionReturnsScriptStatus(steps: seq<S.Step>, s: S.State, writes: seq<Output>, records: seq<Record>)
    requires S.Reaches(false, steps, s) && S.Stuck(s)
    requires s.input.Open? && s.pipe.Flows? && s.streamRan
    requires Int32(S.ExitStatusOf(s.invokeFuture))
    requires AllInt32(writes) && AllSized(records) && |records| == MAX_HEADER
    ensures s.invokeFuture.Completed?
    ensures Demultiplexed(Frames(writes) + Wire(s.statuses) + "", records)
         == Session(Bodies(writes, Out), Bodies(writes, Err), Returned(S.ExitStatusOf(s.invokeFuture)), "")
  {
    hide S.Reaches, S.Stuck, Demultiplexed, Frames, Bodies, ExitFrame, S.ExitStatusOf;
    S.EverySessionEnds(false, steps, s);
    S.QuietInputSendsScriptStatus(steps, s);
    ResponseDemultiplexed(writes, S.ExitStatusOf(s.invokeFuture), "", records);
  }

  /**
   What the client returns for what became of the script, when input and pipe are quiet: 0 for a script that ran to its
   end, 1 for an interrupted one, the number of an exit or of a server error, -1 for any other throwable.
   */
  lemma QuietSessionNumbers(steps: seq<S.Step>, s: S.State, writes: seq<Output>, records: seq<Record>)
    requires S.Reaches(false, steps, s) && S.Stuck(s)
    requires s.input.Open? && s.pipe.Flows? && s.streamRan
    requires AllInt32(writes) && AllSized(records) && |records| == MAX_HEADER
    ensures s.invokeFuture.Completed?
    ensures var end := Demultiplexed(Frames(writes) + Wire(s.statuses) + "", records).end;
            match s.invokeFuture.outcome
            case Finished => end == Returned(0)
            case Interruption => end == Returned(1)
            case SystemExit(n) => Int32(n) ==> end == Returned(n)
            case GServError(n) => Int32(n) ==> end == Returned(n)
            case OtherThrowable => end == Returned(-1)
  {
    hide S.Reaches, S.Stuck, Demultiplexed, Frames, Wire, S.ExitStatusOf, AllInt32, AllSized;
    S.EverySessionEnds(false, steps, s);
    S.QuietInputSendsScriptStatus(steps, s);
    StatusNumbers();
    if Int32(S.ExitStatusOf(s.invokeFuture)) {
      QuietSessionReturnsScriptStatus(steps, s, writes, records);
    }
  }

  // ----- built-in commands -----

  /** RequestWorker.run answers these two itself. */
  predicate BuiltIn(request: Request.InvocationRequest) {
    request.command == Some("ping") || request.command == Some("shutdown")
  }

  /** A ping, and likewise a shutdown, is answered with 0 and nothing else, whatever follows it on the stream. */
  lemma CommandAnswered(token: string, cmd: string, rest: string, steps: seq<S.Step>, s: S.State, records: seq<Record>)
    requires Request.Clean(token) && token != "" && (cmd == "ping" || cmd == "shutdown")
    requires S.Reaches(true, steps, s) && S.Stuck(s) && AllSized(records) && |records| == MAX_HEADER
    ensures var reading := Request.RequestOf(Parsed(BlockLines(
                             Formatted([Entry("Auth", [token]), Entry("Cmd", [cmd])], rest))), token);
            reading.Received? && BuiltIn(reading.request)
    ensures Demultiplexed(Wire(s.statuses) + "", records) == Session("", "", Returned(0), "")
  {
    CommandsClean();
    Request.CommandRoundTrip(token, cmd, rest);
    CommandStatus(steps, s);
    hide S.Reaches, S.Stuck, Demultiplexed, ExitFrame, Parsed, BlockLines, Formatted, Request.RequestOf;
    ExitDemultiplexed(0, "", records);
  }

  lemma CommandsClean()
    ensures Request.Clean("ping") && Request.Clean("shutdown")
  {
  }

  lemma CommandStatus(steps: seq<S.Step>, s: S.State)
    requires S.Reaches(true, steps, s) && S.Stuck(s)
    ensures s.statuses == [S.Sent(S.Main, 0)]
  {
    S.EverySessionEnds(true, steps, s);
    S.ReachableInv(true, steps, s);
    assert S.ConnectionInv(s) && S.MainInv(s);
  }

  /** What any other request is: a script to run. */
  lemma OthersRun(cwd: string, token: string, args: seq<string>, envVars: seq<string>, classpath: Option<string>)
    ensures !BuiltIn(Request.RequestSent(cwd, token, args, envVars, classpath))
  {
  }

  // ----- the ends of the stream handler -----

  /** Behind the close the stream handler can end in both ways, by its read's error or by the stream that is gone. */
  lemma CloseEndsHandler(s: S.State)
    requires !s.connected && s.streamWorker.Running? && s.pipe.Flows?
    ensures S.Enabled(s, S.RunEnds(S.Stream, OutcomeOf(StdinPath.ByIOError)))
    ensures S.Enabled(s, S.RunEnds(S.Stream, OutcomeOf(StdinPath.ByClosedConnection)))
    ensures OutcomeOf(StdinPath.ByIOError) == S.Finished && OutcomeOf(StdinPath.ByClosedConnection) == S.OtherThrowable
  {
  }

  /**
   What the client receives when the stream handler ends while the script runs, in some run for every such end. A
   connection closed by another thread has seen its status already.
   */
  lemma HandlerEndNumbers(end: StdinPath.HandlerEnd) returns (steps: seq<S.Step>, s: S.State)
    requires !end.ByClosedConnection?
    ensures S.Reaches(false, steps, s) && s.invokeFuture == S.Cancelled && |s.statuses| == 1
    ensures match end
            case ByClientRequest => s.statuses[0].status == 1
            case ByInvalidRequest => s.statuses[0].status == 1
            case ByEndOfStream => s.statuses[0].status == 1
            case ByNegativeSize => s.statuses[0].status == -1
            case ByIOError => s.statuses[0].status == 0
            case ByPipeError => s.statuses[0].status == 0
  {
    StatusNumbers();
    hide S.Reaches, S.ExitStatusOf;
    if end.ByPipeError? {
      steps, s := S.BrokenPipeCancelsScript();
    } else {
      steps, s := S.InputCancelsScript(OutcomeOf(end));
    }
  }

  /** The status frame of a session that has ended. */
  lemma SessionStatus(steps: seq<S.Step>, s: S.State) returns (first: S.Task)
    requires S.Reaches(false, steps, s) && s.terminated
    ensures S.FirstCloser(S.Init(false), steps) == Some(S.By(first))
    ensures Wire(s.statuses) == ExitFrame(S.ExitStatusOf(S.FutureOf(s, first)))
  {
    S.ReachableInv(false, steps, s);
    first := S.JointCompletion(steps, s, S.Stream);
  }
}
