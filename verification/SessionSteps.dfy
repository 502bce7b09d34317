/**
 RequestWorker as a state machine. Two future tasks run on two pool threads; each ends in afterExecute,
 which may cancel the other and closes the connection. Every field access and every synchronized method is
 one step; memory is sequentially consistent. A script is an arbitrary outcome at an arbitrary time. The stream
 handler blocks in reading the socket, or in writing to a pipe whose buffer is full: it leaves the read when the
 client's input makes it end or the socket is closed, the write when the script reads, or by an interruption.
 */
module SessionSteps {
  import opened Text

  // ----- ExitStatus and getExitStatus -----

  const SUCCESS := 0
  const INTERRUPTED := 1
  const TERMINATED := 5
  const UNEXPECTED_ERROR := -1

  /** What ends the run() of a handler; a GServInterruptedException counts as Interruption. */
  datatype Outcome =
    | Finished | Interruption | SystemExit(exitStatus: int) | GServError(exitStatus: int) | OtherThrowable

  /** A FutureTask: pending or running, done with an outcome, or cancelled. */
  datatype Future = New | Completed(outcome: Outcome) | Cancelled

  predicate IsDone(f: Future) {
    !f.New?
  }

  function ExitStatusOf(f: Future): int {
    match f
    case New => SUCCESS
    case Cancelled => INTERRUPTED
    case Completed(outcome) =>
      match outcome
      case Finished => SUCCESS
      case Interruption => INTERRUPTED
      case SystemExit(status) => status
      case GServError(status) => status
      case OtherThrowable => UNEXPECTED_ERROR
  }

  /** How StreamRequestHandler.run can end: by the client or an error of its read; its other errors it only logs. */
  predicate StreamOutcome(outcome: Outcome) {
    outcome.Finished? || outcome.Interruption? || outcome.OtherThrowable?
  }

  // ----- the state -----

  datatype Task = Stream | Invoke

  function Other(t: Task): Task {
    if t.Stream? then Invoke else Stream
  }

  /** The thread that called run(): handleRequest submits and assigns one future after the other. */
  datatype MainPc =
    | Received(command: bool) | Answered
    | StreamSubmitted | StreamAssigned | InvokeSubmitted | InvokeAssigned | PoolShutDown

  /** A pool thread: about to run its task, running it, then the points of afterExecute, then waiting for work. */
  datatype WorkerPc =
    | NotStarted | Submitted | Running | Awaiting | Assigned | Decided(status: int) | Cancelling(status: int)
    | Closing(status: int) | Idle | Exited

  datatype Sender = Main | By(task: Task) | Hook

  /** A Status frame attempted on the connection. */
  datatype Sent = Sent(sender: Sender, status: int)

  /** The client's side of the socket: nothing yet that ends the stream handler's read, or that which ends it so. */
  datatype Input = Open | Over(outcome: Outcome)

  /**
   The pipe to the script's stdin: it takes what the stream handler transfers, the handler waits for room in it, or a
   transfer fails because the thread that read from it is dead.
   */
  datatype Pipe = Flows | Full | Broken

  datatype State = State(
    main: MainPc,
    streamFuture: Future, invokeFuture: Future,
    streamWorker: WorkerPc, invokeWorker: WorkerPc,
    terminated: bool,
    connected: bool,          // conn != null
    statuses: seq<Sent>,
    closes: nat,
    input: Input,
    pipe: Pipe,
    streamRan: bool)          // StreamRequestHandler.run was entered

  function FutureOf(s: State, t: Task): Future {
    if t.Stream? then s.streamFuture else s.invokeFuture
  }

  function WorkerOf(s: State, t: Task): WorkerPc {
    if t.Stream? then s.streamWorker else s.invokeWorker
  }

  function WithFuture(s: State, t: Task, f: Future): State {
    if t.Stream? then s.(streamFuture := f) else s.(invokeFuture := f)
  }

  function WithWorker(s: State, t: Task, pc: WorkerPc): State {
    if t.Stream? then s.(streamWorker := pc) else s.(invokeWorker := pc)
  }

  /** Both instance variables hold their futures. */
  predicate FieldsAssigned(s: State) {
    s.main.InvokeAssigned? || s.main.PoolShutDown?
  }

  function Init(command: bool): State {
    State(Received(command), New, New, NotStarted, NotStarted, false, true, [], 0, Open, Flows, false)
  }

  /** closeSafely: sends the status, closes and forgets the connection, unless somebody did so before. */
  function Closed(s: State, who: Sender, status: int): State {
    if !s.connected then s
    else s.(connected := false, statuses := s.statuses + [Sent(who, status)], closes := s.closes + 1)
  }

  // ----- the steps -----

  datatype Step =
    | MainGoesOn
    | InputEnds(outcome: Outcome)
    | PipeFills
    | PipeDrains
    | PipeBreaks
    | Starts(task: Task)
    | RunEnds(task: Task, outcome: Outcome)
    | SeesFields(task: Task)
    | TakesStatus(task: Task)
    | LooksAtOther(task: Task)
    | CancelsOther(task: Task)
    | ClosesSafely(task: Task)
    | WorkerExits(task: Task)
    | TerminatedHook

  /**
   The stream handler's read ends by the client's input or by the closed socket, whose stream may also be gone
   already. Its write to a full pipe ends by the interruption of a cancelled task, or by the closed pipe; a transfer
   that fails ends it too. A script may end at any time.
   */
  predicate MayEnd(s: State, t: Task, outcome: Outcome) {
    t.Invoke? ||
    match s.pipe
    case Flows => s.input == Over(outcome) || (!s.connected && (outcome.Finished? || outcome.OtherThrowable?))
    case Full => outcome.Finished? && (s.streamFuture.Cancelled? || !s.connected)
    case Broken => outcome.Finished?
  }

  predicate Enabled(s: State, step: Step) {
    match step
    case MainGoesOn => !s.main.Answered? && !s.main.PoolShutDown?
    case InputEnds(outcome) => s.input.Open? && StreamOutcome(outcome)
    case PipeFills => s.streamWorker.Running? && s.connected && s.pipe.Flows?
    case PipeDrains => s.streamWorker.Running? && s.connected && s.pipe.Full? && s.invokeWorker.Running?
    case PipeBreaks =>
      && s.streamWorker.Running? && s.connected && !s.pipe.Broken?
      && !s.invokeWorker.NotStarted? && !s.invokeWorker.Submitted?
    case Starts(t) => WorkerOf(s, t).Submitted?
    case RunEnds(t, outcome) => WorkerOf(s, t).Running? && MayEnd(s, t, outcome)
    case SeesFields(t) => WorkerOf(s, t).Awaiting? && FieldsAssigned(s)
    case TakesStatus(t) => WorkerOf(s, t).Assigned? && IsDone(FutureOf(s, t))
    case LooksAtOther(t) => WorkerOf(s, t).Decided?
    case CancelsOther(t) => WorkerOf(s, t).Cancelling?
    case ClosesSafely(t) => WorkerOf(s, t).Closing?
    case WorkerExits(t) => WorkerOf(s, t).Idle? && s.main.PoolShutDown?
    case TerminatedHook =>
      s.main.PoolShutDown? && s.streamWorker.Exited? && s.invokeWorker.Exited? && !s.terminated
  }

  function MainStep(s: State): State {
    match s.main
    case Received(command) =>
      if command then Closed(s, Main, SUCCESS).(main := Answered)
      else s.(main := StreamSubmitted, streamWorker := Submitted)
    case StreamSubmitted => s.(main := StreamAssigned)
    case StreamAssigned => s.(main := InvokeSubmitted, invokeWorker := Submitted)
    case InvokeSubmitted => s.(main := InvokeAssigned)
    case InvokeAssigned => s.(main := PoolShutDown)
    case Answered => s
    case PoolShutDown => s
  }

  function Next(s: State, step: Step): State
    requires Enabled(s, step)
  {
    match step
    case MainGoesOn => MainStep(s)
    case InputEnds(outcome) => s.(input := Over(outcome))
    case PipeFills => s.(pipe := Full)
    case PipeDrains => s.(pipe := Flows)
    case PipeBreaks => s.(pipe := Broken)
    case Starts(t) =>
      if IsDone(FutureOf(s, t)) then WithWorker(s, t, Awaiting)
      else WithWorker(s, t, Running).(streamRan := s.streamRan || t.Stream?)
    case RunEnds(t, outcome) =>
      var f := if FutureOf(s, t).New? then Completed(outcome) else FutureOf(s, t);
      WithWorker(WithFuture(s, t, f), t, Awaiting)
    case SeesFields(t) => WithWorker(s, t, Assigned)
    case TakesStatus(t) => WithWorker(s, t, Decided(ExitStatusOf(FutureOf(s, t))))
    case LooksAtOther(t) =>
      var status := WorkerOf(s, t).status;
      WithWorker(s, t, if IsDone(FutureOf(s, Other(t))) then Closing(status) else Cancelling(status))
    case CancelsOther(t) =>
      var f := FutureOf(s, Other(t));
      WithWorker(WithFuture(s, Other(t), if f.New? then Cancelled else f), t, Closing(WorkerOf(s, t).status))
    case ClosesSafely(t) => WithWorker(Closed(s, By(t), WorkerOf(s, t).status), t, Idle)
    case WorkerExits(t) => WithWorker(s, t, Exited)
    case TerminatedHook => Closed(s, Hook, TERMINATED).(terminated := true)
  }

  /** Where the steps lead from `s`; None when one of them cannot be taken. */
  function Run(s: State, steps: seq<Step>): Option<State>
    decreases |steps|
  {
    if steps == [] then Some(s)
    else if Enabled(s, steps[0]) then Run(Next(s, steps[0]), steps[1..])
    else None
  }

  /** `s` is reachable from the start of a session, by this interleaving. */
  predicate Reaches(command: bool, steps: seq<Step>, s: State) {
    Run(Init(command), steps) == Some(s)
  }

  // ----- the invariant -----

  /** The task's afterExecute has passed closeSafely. */
  predicate PastClose(pc: WorkerPc) {
    pc.Idle? || pc.Exited?
  }

  predicate PastCancel(pc: WorkerPc) {
    pc.Closing? || PastClose(pc)
  }

  predicate PastWait(pc: WorkerPc) {
    pc.Assigned? || pc.Decided? || pc.Cancelling? || PastCancel(pc)
  }

  predicate PastRun(pc: WorkerPc) {
    pc.Awaiting? || PastWait(pc)
  }

  ghost predicate MainInv(s: State) {
    && (s.streamWorker.NotStarted? <==> s.main.Received? || s.main.Answered?)
    && (s.invokeWorker.NotStarted? <==>
          s.main.Received? || s.main.Answered? || s.main.StreamSubmitted? || s.main.StreamAssigned?)
    && (s.terminated ==> s.streamWorker.Exited? && s.invokeWorker.Exited?)
  }

  ghost predicate TaskInv(s: State, t: Task) {
    var pc, own, other := WorkerOf(s, t), FutureOf(s, t), FutureOf(s, Other(t));
    && (pc.NotStarted? || pc.Submitted? ==> own.New? || own.Cancelled?)
    && (PastRun(pc) ==> IsDone(own))
    && (PastWait(pc) ==> FieldsAssigned(s))
    && (pc.Decided? || pc.Cancelling? || pc.Closing? ==> pc.status == ExitStatusOf(own))
    && (PastCancel(pc) ==> IsDone(other))
    && (pc.Exited? ==> s.main.PoolShutDown?)
    && (own.Cancelled? ==> other.Completed? && PastCancel(WorkerOf(s, Other(t))))
  }

  ghost predicate ConnectionInv(s: State) {
    && (s.connected ==> s.closes == 0 && s.statuses == [] && !s.main.Answered? && !s.terminated
                        && !PastClose(s.streamWorker) && !PastClose(s.invokeWorker))
    && (!s.connected ==>
          && s.closes == 1 && |s.statuses| == 1
          && match s.statuses[0].sender
             case Main => s.main.Answered? && s.statuses[0].status == SUCCESS
             case By(t) => PastClose(WorkerOf(s, t)) && s.statuses[0].status == ExitStatusOf(FutureOf(s, t))
             case Hook => false)
  }

  /** The stream handler ends by itself only as its input and its pipe do, or behind the close. */
  ghost predicate InputInv(s: State) {
    && (s.streamFuture.Completed? ==> StreamOutcome(s.streamFuture.outcome) && s.streamRan)
    && (s.input.Over? ==> StreamOutcome(s.input.outcome))
    && (s.streamRan ==> !s.streamWorker.NotStarted? && !s.streamWorker.Submitted?)
    && (s.streamWorker.Running? ==> s.streamRan)
    && (s.input.Open? && !s.pipe.Broken? ==> QuietInv(s))
  }

  ghost predicate QuietInv(s: State) {
    && !s.invokeFuture.Cancelled?
    && (s.streamFuture.Completed? || (s.pipe.Flows? && s.streamRan && PastRun(s.streamWorker)) ==> !s.connected)
    && ((s.streamFuture.Completed? || (s.pipe.Flows? && s.streamRan)) && s.statuses != [] ==>
          s.statuses[0].sender == By(Invoke))
  }

  ghost predicate Inv(s: State) {
    MainInv(s) && TaskInv(s, Stream) && TaskInv(s, Invoke) && ConnectionInv(s) && InputInv(s)
  }

  lemma InitInv(command: bool)
    ensures Inv(Init(command))
  {
  }

  lemma MainKeepsInv(s: State)
    requires Inv(s) && Enabled(s, MainGoesOn)
    ensures Inv(MainStep(s))
  {
  }

  lemma RunEndKeepsInv(s: State, t: Task, outcome: Outcome)
    requires Inv(s) && Enabled(s, RunEnds(t, outcome))
    ensures Inv(Next(s, RunEnds(t, outcome)))
  {
    assert TaskInv(s, t) && TaskInv(s, Other(t));
  }

  lemma StartKeepsInv(s: State, t: Task)
    requires Inv(s) && Enabled(s, Starts(t))
    ensures Inv(Next(s, Starts(t)))
  {
    assert TaskInv(s, t) && TaskInv(s, Other(t));
  }

  lemma DrainKeepsInv(s: State)
    requires Inv(s) && Enabled(s, PipeDrains)
    ensures Inv(Next(s, PipeDrains))
  {
    assert TaskInv(s, Stream) && TaskInv(s, Invoke) && ConnectionInv(s);
  }

  lemma StatusKeepsInv(s: State, t: Task)
    requires Inv(s)
    ensures Enabled(s, SeesFields(t)) ==> Inv(Next(s, SeesFields(t)))
    ensures Enabled(s, TakesStatus(t)) ==> Inv(Next(s, TakesStatus(t)))
  {
    hide ExitStatusOf;
    assert TaskInv(s, t) && TaskInv(s, Other(t));
  }

  lemma LookKeepsInv(s: State, t: Task)
    requires Inv(s) && Enabled(s, LooksAtOther(t))
    ensures Inv(Next(s, LooksAtOther(t)))
  {
    assert TaskInv(s, t) && TaskInv(s, Other(t));
  }

  lemma ExitKeepsInv(s: State, t: Task)
    requires Inv(s) && Enabled(s, WorkerExits(t))
    ensures Inv(Next(s, WorkerExits(t)))
  {
    assert TaskInv(s, t) && TaskInv(s, Other(t));
  }

  lemma CancelKeepsInv(s: State, t: Task)
    requires Inv(s) && Enabled(s, CancelsOther(t))
    ensures Inv(Next(s, CancelsOther(t)))
  {
    assert TaskInv(s, t) && TaskInv(s, Other(t));
  }

  lemma CloseKeepsInv(s: State, t: Task)
    requires Inv(s) && Enabled(s, ClosesSafely(t))
    ensures Inv(Next(s, ClosesSafely(t)))
  {
    assert TaskInv(s, t) && TaskInv(s, Other(t));
  }

  /** Every step keeps the invariant. */
  lemma StepKeepsInv(s: State, step: Step)
    requires Inv(s) && Enabled(s, step)
    ensures Inv(Next(s, step))
  {
    match step
    case MainGoesOn => MainKeepsInv(s);
    case InputEnds(_) =>
    case PipeFills =>
    case PipeDrains => DrainKeepsInv(s);
    case PipeBreaks =>
    case Starts(t) => StartKeepsInv(s, t);
    case RunEnds(t, outcome) => RunEndKeepsInv(s, t, outcome);
    case SeesFields(t) => StatusKeepsInv(s, t);
    case TakesStatus(t) => StatusKeepsInv(s, t);
    case LooksAtOther(t) => LookKeepsInv(s, t);
    case CancelsOther(t) => CancelKeepsInv(s, t);
    case ClosesSafely(t) => CloseKeepsInv(s, t);
    case WorkerExits(t) => ExitKeepsInv(s, t);
    case TerminatedHook =>
  }

  lemma {:induction false} RunKeepsInv(s: State, steps: seq<Step>, end: State)
    requires Inv(s) && Run(s, steps) == Some(end)
    ensures Inv(end)
    decreases |steps|
  {
    if steps != [] {
      StepKeepsInv(s, steps[0]);
      hide Inv, Next, Enabled;
      RunKeepsInv(Next(s, steps[0]), steps[1..], end);
    }
  }

  /** In every interleaving, every reachable state satisfies the invariant. */
  lemma ReachableInv(command: bool, steps: seq<Step>, s: State)
    requires Reaches(command, steps, s)
    ensures Inv(s)
  {
    InitInv(command);
    RunKeepsInv(Init(command), steps, s);
  }

  // ----- what the invariant means -----

  /**
   Single exit: in every interleaving at most one Status frame is attempted and the connection is closed at
   most once; once the hook has run, the connection is gone after exactly one close.
   */
  lemma SingleExit(command: bool, steps: seq<Step>, s: State)
    requires Reaches(command, steps, s)
    ensures |s.statuses| == s.closes <= 1 && (s.connected <==> s.closes == 0)
    ensures s.terminated || s.main.Answered? ==> !s.connected && s.closes == 1
  {
    ReachableInv(command, steps, s);
  }

  /** Who enters closeSafely by a step, Main standing for a built-in command. */
  function Closer(s: State, step: Step): Option<Sender> {
    if step.ClosesSafely? then Some(By(step.task))
    else if step.TerminatedHook? then Some(Hook)
    else if step.MainGoesOn? && s.main == Received(true) then Some(Main)
    else None
  }

  /** The first to enter closeSafely in a run. */
  function FirstCloser(s: State, steps: seq<Step>): Option<Sender>
    requires Run(s, steps).Some?
    decreases |steps|
  {
    if steps == [] then None
    else if Closer(s, steps[0]).Some? then Closer(s, steps[0])
    else FirstCloser(Next(s, steps[0]), steps[1..])
  }

  lemma StepCloses(s: State, step: Step)
    requires Enabled(s, step)
    ensures !s.connected || Closer(s, step).None? ==>
              Next(s, step).statuses == s.statuses && Next(s, step).connected == s.connected
    ensures s.connected && Closer(s, step).Some? ==>
              && !Next(s, step).connected && |Next(s, step).statuses| == |s.statuses| + 1
              && Next(s, step).statuses[|s.statuses|].sender == Closer(s, step).value
  {
  }

  lemma {:induction false} DisconnectedStays(s: State, steps: seq<Step>, end: State)
    requires !s.connected && Run(s, steps) == Some(end)
    ensures end.statuses == s.statuses && !end.connected
    decreases |steps|
  {
    if steps != [] {
      StepCloses(s, steps[0]);
      hide Next, Enabled, Closer;
      DisconnectedStays(Next(s, steps[0]), steps[1..], end);
    }
  }

  lemma {:induction false} FirstCloserSendsFrom(s: State, steps: seq<Step>, end: State)
    requires s.connected && s.statuses == [] && Run(s, steps) == Some(end)
    ensures FirstCloser(s, steps).None? ==> end.statuses == []
    ensures FirstCloser(s, steps).Some? ==> |end.statuses| == 1 && end.statuses[0].sender == FirstCloser(s, steps).value
    decreases |steps|
  {
    if steps != [] {
      StepCloses(s, steps[0]);
      hide Next, Enabled, Closer;
      if Closer(s, steps[0]).Some? {
        DisconnectedStays(Next(s, steps[0]), steps[1..], end);
      } else {
        FirstCloserSendsFrom(Next(s, steps[0]), steps[1..], end);
      }
    }
  }

  /** Who sends the status is who enters closeSafely first, in every interleaving. */
  lemma FirstCloserSends(command: bool, steps: seq<Step>, s: State)
    requires Reaches(command, steps, s)
    ensures match FirstCloser(Init(command), steps)
            case None => s.statuses == []
            case Some(sender) => |s.statuses| == 1 && s.statuses[0].sender == sender
  {
    FirstCloserSendsFrom(Init(command), steps, s);
  }

  ghost predicate MainOf(s: State, command: bool) {
    command <==> s.main == Received(true) || s.main == Answered
  }

  lemma StepKeepsMain(s: State, step: Step, command: bool)
    requires Inv(s) && Enabled(s, step) && MainOf(s, command)
    ensures MainOf(Next(s, step), command)
  {
  }

  lemma {:induction false} RunKeepsMain(s: State, steps: seq<Step>, end: State, command: bool)
    requires Inv(s) && MainOf(s, command) && Run(s, steps) == Some(end)
    ensures MainOf(end, command)
    decreases |steps|
  {
    if steps != [] {
      StepKeepsInv(s, steps[0]);
      StepKeepsMain(s, steps[0], command);
      hide Inv, Next, Enabled, MainOf;
      RunKeepsMain(Next(s, steps[0]), steps[1..], end, command);
    }
  }

  /**
   Joint completion: once any afterExecute has passed closeSafely, both futures are done, and the status on
   the wire is the getExitStatus image of the future whose handler entered closeSafely first.
   */
  lemma JointCompletion(steps: seq<Step>, s: State, t: Task) returns (first: Task)
    requires Reaches(false, steps, s) && PastClose(WorkerOf(s, t))
    ensures IsDone(s.streamFuture) && IsDone(s.invokeFuture)
    ensures FirstCloser(Init(false), steps) == Some(By(first))
    ensures s.statuses == [Sent(By(first), ExitStatusOf(FutureOf(s, first)))]
  {
    ReachableInv(false, steps, s);
    FirstCloserSends(false, steps, s);
    InitInv(false);
    RunKeepsMain(Init(false), steps, s, false);
    assert TaskInv(s, t) && ConnectionInv(s);
    assert s.statuses[0].sender.By?;
    first := s.statuses[0].sender.task;
  }

  /** The hook never sends: whenever it runs, the connection is already gone. */
  lemma HookFindsNothing(command: bool, steps: seq<Step>, s: State)
    requires Reaches(command, steps, s)
    ensures Enabled(s, TerminatedHook) ==> !s.connected && Next(s, TerminatedHook).statuses == s.statuses
    ensures s.statuses != [] ==> s.statuses[0].sender != Hook
  {
    ReachableInv(command, steps, s);
  }

  /** At most one of the two is ever cancelled, and then the other completed by itself before. */
  lemma OneIsCancelled(command: bool, steps: seq<Step>, s: State, t: Task)
    requires Reaches(command, steps, s) && FutureOf(s, t).Cancelled?
    ensures FutureOf(s, Other(t)).Completed?
  {
    ReachableInv(command, steps, s);
    assert TaskInv(s, t);
  }

  lemma StepKeepsOutcome(s: State, step: Step, t: Task)
    requires Enabled(s, step) && IsDone(FutureOf(s, t))
    ensures FutureOf(Next(s, step), t) == FutureOf(s, t)
  {
    hide ExitStatusOf;
  }

  /** A future that is done keeps its outcome. */
  lemma {:induction false} OutcomeIsFinal(s: State, steps: seq<Step>, end: State, t: Task)
    requires Run(s, steps) == Some(end) && IsDone(FutureOf(s, t))
    ensures FutureOf(end, t) == FutureOf(s, t)
    decreases |steps|
  {
    if steps != [] {
      StepKeepsOutcome(s, steps[0], t);
      hide Next, Enabled, FutureOf;
      OutcomeIsFinal(Next(s, steps[0]), steps[1..], end, t);
    }
  }

  // ----- runs -----

  lemma {:induction false} RunSnoc(s: State, steps: seq<Step>, step: Step)
    requires Run(s, steps).Some? && Enabled(Run(s, steps).value, step)
    ensures Run(s, steps + [step]) == Some(Next(Run(s, steps).value, step))
    decreases |steps|
  {
    if steps == [] {
      assert [] + [step] == [step] && [step][1..] == [];
    } else {
      RunSnoc(Next(s, steps[0]), steps[1..], step);
      assert (steps + [step])[1..] == steps[1..] + [step];
    }
  }

  /** A run goes on by one step. */
  lemma Take(steps: seq<Step>, s: State, step: Step) returns (longer: seq<Step>, next: State)
    requires Reaches(false, steps, s) && Enabled(s, step)
    ensures longer == steps + [step] && next == Next(s, step) && Reaches(false, longer, next)
  {
    RunSnoc(Init(false), steps, step);
    longer, next := steps + [step], Next(s, step);
  }

  const BOTH_SUBMITTED: State :=
    State(InvokeAssigned, New, New, Submitted, Submitted, false, true, [], 0, Open, Flows, false)

  lemma BothSubmitted() returns (steps: seq<Step>)
    ensures Reaches(false, steps, BOTH_SUBMITTED)
  {
    var s;
    steps, s := [], Init(false);
    assert Reaches(false, steps, s);
    hide Reaches;
    steps, s := Take(steps, s, MainGoesOn);
    steps, s := Take(steps, s, MainGoesOn);
    steps, s := Take(steps, s, MainGoesOn);
    steps, s := Take(steps, s, MainGoesOn);
  }

  /** The script runs and ends by itself. */
  lemma ScriptEnds(before: seq<Step>, s: State, outcome: Outcome) returns (steps: seq<Step>, end: State)
    requires Reaches(false, before, s) && s.invokeWorker.Submitted? && s.invokeFuture.New?
    ensures end == s.(invokeFuture := Completed(outcome), invokeWorker := Awaiting) && Reaches(false, steps, end)
  {
    hide Reaches;
    steps, end := Take(before, s, Starts(Invoke));
    steps, end := Take(steps, end, RunEnds(Invoke, outcome));
  }

  /** A handler that has ended gets to closeSafely, cancelling the other one if it is not done. */
  lemma GetsToClose(before: seq<Step>, s: State, t: Task) returns (steps: seq<Step>, end: State)
    requires Reaches(false, before, s) && s.main.InvokeAssigned? && WorkerOf(s, t).Awaiting? && IsDone(FutureOf(s, t))
    ensures Reaches(false, steps, end)
    ensures var other := if IsDone(FutureOf(s, Other(t))) then FutureOf(s, Other(t)) else Cancelled;
            end == WithWorker(WithFuture(s, Other(t), other), t, Closing(ExitStatusOf(FutureOf(s, t))))
  {
    hide Reaches, ExitStatusOf;
    steps, end := Take(before, s, SeesFields(t));
    steps, end := Take(steps, end, TakesStatus(t));
    steps, end := Take(steps, end, LooksAtOther(t));
    if WorkerOf(end, t).Cancelling? {
      steps, end := Take(steps, end, CancelsOther(t));
    }
  }

  /** The first closer sends the status of its future. */
  lemma ClosesFirst(before: seq<Step>, s: State, t: Task) returns (steps: seq<Step>, end: State)
    requires Reaches(false, before, s) && WorkerOf(s, t) == Closing(ExitStatusOf(FutureOf(s, t)))
    requires s.connected && s.statuses == []
    ensures Reaches(false, steps, end) && end.statuses == [Sent(By(t), ExitStatusOf(FutureOf(s, t)))]
    ensures end.streamFuture == s.streamFuture && end.invokeFuture == s.invokeFuture
    ensures end.input == s.input && end.streamRan == s.streamRan && end.pipe == s.pipe
  {
    hide Reaches, ExitStatusOf;
    steps, end := Take(before, s, ClosesSafely(t));
  }

  /** The usual session: the script ends, its thread cancels the stream handler, closes, and sends its own status. */
  lemma ScriptClosesFirst(outcome: Outcome) returns (steps: seq<Step>, s: State)
    ensures Reaches(false, steps, s) && s.input.Open? && s.pipe.Flows? && s.streamRan
    ensures s.invokeFuture == Completed(outcome) && s.streamFuture == Cancelled
    ensures s.statuses == [Sent(By(Invoke), ExitStatusOf(Completed(outcome)))]
  {
    hide Reaches, ExitStatusOf;
    steps := BothSubmitted();
    steps, s := Take(steps, BOTH_SUBMITTED, Starts(Stream));
    steps, s := ScriptEnds(steps, s, outcome);
    steps, s := GetsToClose(steps, s, Invoke);
    steps, s := ClosesFirst(steps, s, Invoke);
  }

  /**
   The race of a short script: whatever its outcome, the stream handler that its thread has cancelled before it
   even began can enter closeSafely first, and then the client receives INTERRUPTED.
   */
  lemma ScriptStatusCanBeLost(outcome: Outcome) returns (steps: seq<Step>, s: State)
    ensures Reaches(false, steps, s) && s.input.Open? && s.pipe.Flows? && !s.streamRan
    ensures s.invokeFuture == Completed(outcome) && s.streamFuture == Cancelled
    ensures s.statuses == [Sent(By(Stream), INTERRUPTED)]
  {
    hide Reaches;
    steps := BothSubmitted();
    steps, s := ScriptEnds(steps, BOTH_SUBMITTED, outcome);
    steps, s := GetsToClose(steps, s, Invoke);
    steps, s := Take(steps, s, Starts(Stream));
    steps, s := GetsToClose(steps, s, Stream);
    steps, s := ClosesFirst(steps, s, Stream);
  }

  /** The race of the client's input: it ends the stream handler, which closes before the script's thread does. */
  lemma InputOvertakesScript(outcome: Outcome, ending: Outcome) returns (steps: seq<Step>, s: State)
    requires StreamOutcome(ending)
    ensures Reaches(false, steps, s) && s.input == Over(ending) && s.pipe.Flows? && s.streamRan
    ensures s.invokeFuture == Completed(outcome)
    ensures s.statuses == [Sent(By(Stream), ExitStatusOf(Completed(ending)))]
  {
    hide Reaches, ExitStatusOf;
    steps := BothSubmitted();
    steps, s := Take(steps, BOTH_SUBMITTED, Starts(Stream));
    steps, s := Take(steps, s, InputEnds(ending));
    steps, s := Take(steps, s, RunEnds(Stream, ending));
    steps, s := ScriptEnds(steps, s, outcome);
    steps, s := GetsToClose(steps, s, Stream);
    steps, s := ClosesFirst(steps, s, Stream);
  }

  /**
   The race of a full pipe: a script that does not read all of its stdin ends, its thread interrupts the stream
   handler's write, and the stream handler closes first.
   */
  lemma FullPipeOvertakesScript(outcome: Outcome) returns (steps: seq<Step>, s: State)
    ensures Reaches(false, steps, s) && s.input.Open? && s.pipe.Full? && s.streamRan
    ensures s.invokeFuture == Completed(outcome) && s.streamFuture == Cancelled
    ensures s.statuses == [Sent(By(Stream), INTERRUPTED)]
  {
    hide Reaches;
    steps := BothSubmitted();
    steps, s := Take(steps, BOTH_SUBMITTED, Starts(Stream));
    steps, s := Take(steps, s, PipeFills);
    steps, s := ScriptEnds(steps, s, outcome);
    steps, s := GetsToClose(steps, s, Invoke);
    steps, s := Take(steps, s, RunEnds(Stream, Finished));
    steps, s := GetsToClose(steps, s, Stream);
    steps, s := ClosesFirst(steps, s, Stream);
  }

  /** The race of a broken pipe: the stream handler whose transfer failed closes first, cancelled or not. */
  lemma BrokenPipeOvertakesScript(outcome: Outcome, cancelled: bool) returns (steps: seq<Step>, s: State)
    ensures Reaches(false, steps, s) && s.input.Open? && s.pipe.Broken? && s.streamRan
    ensures s.invokeFuture == Completed(outcome)
    ensures s.statuses == [Sent(By(Stream), if cancelled then INTERRUPTED else SUCCESS)]
  {
    hide Reaches;
    steps := BothSubmitted();
    steps, s := Take(steps, BOTH_SUBMITTED, Starts(Stream));
    steps, s := ScriptEnds(steps, s, outcome);
    steps, s := Take(steps, s, PipeBreaks);
    if cancelled {
      steps, s := GetsToClose(steps, s, Invoke);
    }
    steps, s := Take(steps, s, RunEnds(Stream, Finished));
    steps, s := GetsToClose(steps, s, Stream);
    steps, s := ClosesFirst(steps, s, Stream);
  }

  /** A line typed behind the death of the thread that read stdin cancels the script, with the status of success. */
  lemma BrokenPipeCancelsScript() returns (steps: seq<Step>, s: State)
    ensures Reaches(false, steps, s) && s.input.Open? && s.pipe.Broken?
    ensures s.invokeFuture == Cancelled && s.statuses == [Sent(By(Stream), SUCCESS)]
  {
    hide Reaches;
    steps := BothSubmitted();
    steps, s := Take(steps, BOTH_SUBMITTED, Starts(Stream));
    steps, s := Take(steps, s, Starts(Invoke));
    steps, s := Take(steps, s, PipeBreaks);
    steps, s := Take(steps, s, RunEnds(Stream, Finished));
    steps, s := GetsToClose(steps, s, Stream);
    steps, s := ClosesFirst(steps, s, Stream);
  }

  /** Input that ends the stream handler while the script runs cancels the script. */
  lemma InputCancelsScript(ending: Outcome) returns (steps: seq<Step>, s: State)
    requires StreamOutcome(ending)
    ensures Reaches(false, steps, s) && s.input == Over(ending)
    ensures s.streamFuture == Completed(ending) && s.invokeFuture == Cancelled
    ensures s.statuses == [Sent(By(Stream), ExitStatusOf(Completed(ending)))]
  {
    hide Reaches, ExitStatusOf;
    steps := BothSubmitted();
    steps, s := Take(steps, BOTH_SUBMITTED, Starts(Stream));
    steps, s := Take(steps, s, Starts(Invoke));
    steps, s := Take(steps, s, InputEnds(ending));
    steps, s := Take(steps, s, RunEnds(Stream, ending));
    steps, s := GetsToClose(steps, s, Stream);
    steps, s := ClosesFirst(steps, s, Stream);
  }

  // ----- which status is sent -----

  /** The status is the image of the first closer's own future. */
  lemma StatusSent(steps: seq<Step>, s: State)
    requires Reaches(false, steps, s) && s.statuses != []
    ensures s.statuses == [Sent(By(Stream), ExitStatusOf(s.streamFuture))]
         || s.statuses == [Sent(By(Invoke), ExitStatusOf(s.invokeFuture))]
    ensures Inv(s) && IsDone(s.streamFuture) && IsDone(s.invokeFuture)
  {
    ReachableInv(false, steps, s);
    InitInv(false);
    RunKeepsMain(Init(false), steps, s, false);
    assert ConnectionInv(s);
    assert s.statuses[0].sender.By?;
    assert TaskInv(s, s.statuses[0].sender.task);
  }

  /**
   A session whose client sends nothing that ends the stream handler, whose stream handler began, and was not left
   waiting for room in the pipe nor failed in it: the client always receives the script's own status.
   */
  lemma QuietInputSendsScriptStatus(steps: seq<Step>, s: State)
    requires Reaches(false, steps, s) && s.input.Open? && s.pipe.Flows? && s.streamRan && s.statuses != []
    ensures s.invokeFuture.Completed? && s.statuses == [Sent(By(Invoke), ExitStatusOf(s.invokeFuture))]
  {
    StatusSent(steps, s);
    assert QuietInv(s);
  }

  /** What may come between a script and its status. */
  datatype Accidents = Accidents(inputEnds: bool, missesStart: bool, pipeFills: bool, pipeBreaks: bool)

  const ANY_ACCIDENT := Accidents(true, true, true, true)

  /** The runs of a script with this outcome in which no other accidents happen. */
  predicate RunOf(outcome: Outcome, may: Accidents, steps: seq<Step>, s: State) {
    && Reaches(false, steps, s) && s.invokeFuture == Completed(outcome) && s.statuses != []
    && (s.input.Over? ==> may.inputEnds) && (!s.streamRan ==> may.missesStart)
    && (s.pipe.Full? ==> may.pipeFills) && (s.pipe.Broken? ==> may.pipeBreaks)
  }

  ghost predicate Certain(outcome: Outcome, may: Accidents) {
    forall steps, s :: RunOf(outcome, may, steps, s) ==> s.statuses[0].status == ExitStatusOf(Completed(outcome))
  }

  /**
   Exactly when the script's status is certain to be the one sent: the input must stay open and the pipe unbroken until
   the connection is closed; and the stream handler must have begun and must not be left waiting for room in the pipe,
   unless the script's status is INTERRUPTED anyway.
   */
  lemma ScriptStatusCertainIff(outcome: Outcome, may: Accidents)
    ensures Certain(outcome, may)
       <==> && !may.inputEnds && !may.pipeBreaks
            && ((!may.missesStart && !may.pipeFills) || ExitStatusOf(Completed(outcome)) == INTERRUPTED)
  {
    hide Reaches, Inv;
    var status := ExitStatusOf(Completed(outcome));
    if may.inputEnds {
      var steps, s := InputOvertakesScript(outcome, if status == INTERRUPTED then OtherThrowable else Interruption);
      assert RunOf(outcome, may, steps, s);
    } else if may.pipeBreaks {
      var steps, s := BrokenPipeOvertakesScript(outcome, status == SUCCESS);
      assert RunOf(outcome, may, steps, s);
    } else {
      if may.missesStart {
        var steps, s := ScriptStatusCanBeLost(outcome);
        assert RunOf(outcome, may, steps, s);
      }
      if may.pipeFills {
        var steps, s := FullPipeOvertakesScript(outcome);
        assert RunOf(outcome, may, steps, s);
      }
      forall steps, s | RunOf(outcome, may, steps, s)
        ensures s.statuses[0].status == status || s.statuses[0].status == INTERRUPTED
        ensures s.streamRan && s.pipe.Flows? ==> s.statuses[0].status == status
      {
        QuietStatus(steps, s);
      }
    }
  }

  lemma QuietStatus(steps: seq<Step>, s: State)
    requires Reaches(false, steps, s) && s.input.Open? && !s.pipe.Broken? && s.statuses != []
    ensures s.statuses[0].status == ExitStatusOf(s.invokeFuture)
         || (s.statuses[0].status == INTERRUPTED && (!s.streamRan || s.pipe.Full?))
  {
    StatusSent(steps, s);
    assert QuietInv(s);
  }

  /** Of the sessions whose stream handler was cancelled, all send the script's status only if that is INTERRUPTED. */
  lemma CancelledStreamIff(outcome: Outcome)
    ensures (forall steps, s :: RunOf(outcome, ANY_ACCIDENT, steps, s) && s.streamFuture.Cancelled? ==>
               s.statuses[0].status == ExitStatusOf(Completed(outcome)))
       <==> ExitStatusOf(Completed(outcome)) == INTERRUPTED
  {
    hide Reaches, Inv;
    var steps, s := ScriptStatusCanBeLost(outcome);
    assert RunOf(outcome, ANY_ACCIDENT, steps, s);
    forall steps, s | RunOf(outcome, ANY_ACCIDENT, steps, s) && s.streamFuture.Cancelled?
      ensures s.statuses[0].status == ExitStatusOf(Completed(outcome)) || s.statuses[0].status == INTERRUPTED
    {
      StatusSent(steps, s);
    }
  }

  /**
   The hook's code TERMINATED reaches the client exactly when the script's own outcome carries that number: some run
   of an outcome sends it if and only if it is the outcome's status.
   */
  lemma TerminatedCodeIff(outcome: Outcome)
    ensures (exists steps, s :: RunOf(outcome, ANY_ACCIDENT, steps, s) && s.statuses[0].status == TERMINATED)
       <==> ExitStatusOf(Completed(outcome)) == TERMINATED
  {
    hide Reaches, Inv;
    if ExitStatusOf(Completed(outcome)) == TERMINATED {
      var steps, s := ScriptClosesFirst(outcome);
      assert RunOf(outcome, ANY_ACCIDENT, steps, s);
    }
    if steps, s :| RunOf(outcome, ANY_ACCIDENT, steps, s) && s.statuses[0].status == TERMINATED {
      OnlyScriptsTerminate(steps, s);
    }
  }

  /** In no run does a cancelled script or the stream handler bring it about. */
  lemma OnlyScriptsTerminate(steps: seq<Step>, s: State)
    requires Reaches(false, steps, s) && s.statuses != [] && s.statuses[0].status == TERMINATED
    ensures s.statuses[0].sender == By(Invoke)
    ensures s.invokeFuture == Completed(SystemExit(TERMINATED)) || s.invokeFuture == Completed(GServError(TERMINATED))
  {
    StatusSent(steps, s);
    assert InputInv(s);
  }

  /** A script that exits with 5 is such a run. */
  lemma ExitWithFive() returns (steps: seq<Step>, s: State)
    ensures Reaches(false, steps, s) && s.statuses == [Sent(By(Invoke), TERMINATED)]
  {
    hide Reaches;
    steps, s := ScriptClosesFirst(SystemExit(5));
  }

  // ----- every session ends -----

  function WorkerRank(pc: WorkerPc): nat {
    match pc
    case NotStarted => 9
    case Submitted => 8
    case Running => 7
    case Awaiting => 6
    case Assigned => 5
    case Decided(_) => 4
    case Cancelling(_) => 3
    case Closing(_) => 2
    case Idle => 1
    case Exited => 0
  }

  function MainRank(pc: MainPc): nat {
    match pc
    case Received(_) => 5
    case StreamSubmitted => 4
    case StreamAssigned => 3
    case InvokeSubmitted => 2
    case InvokeAssigned => 1
    case PoolShutDown => 0
    case Answered => 0
  }

  function Rank(s: State): nat {
    MainRank(s.main) + WorkerRank(s.streamWorker) + WorkerRank(s.invokeWorker)
    + (if s.terminated then 0 else 1) + (if s.input.Open? then 1 else 0) + (if s.pipe.Broken? then 0 else 1)
  }

  lemma MainLowersRank(s: State)
    requires MainInv(s) && Enabled(s, MainGoesOn)
    ensures Rank(MainStep(s)) < Rank(s)
  {
  }

  lemma StartLowersRank(s: State, t: Task)
    requires Enabled(s, Starts(t))
    ensures Rank(Next(s, Starts(t))) < Rank(s)
  {
  }

  lemma RunEndLowersRank(s: State, t: Task, outcome: Outcome)
    requires Enabled(s, RunEnds(t, outcome))
    ensures Rank(Next(s, RunEnds(t, outcome))) < Rank(s)
  {
  }

  /** The pipe may fill and drain again and again while the script reads it. */
  predicate Refills(step: Step) {
    step.PipeFills? || step.PipeDrains?
  }

  function Moves(steps: seq<Step>): nat {
    if steps == [] then 0 else (if Refills(steps[0]) then 0 else 1) + Moves(steps[1..])
  }

  lemma StepLowersRank(s: State, step: Step)
    requires MainInv(s) && Enabled(s, step)
    ensures if Refills(step) then Rank(Next(s, step)) == Rank(s) else Rank(Next(s, step)) < Rank(s)
  {
    match step
    case MainGoesOn => MainLowersRank(s);
    case Starts(t) => StartLowersRank(s, t);
    case RunEnds(t, outcome) => RunEndLowersRank(s, t, outcome);
    case InputEnds(_) =>
    case PipeFills =>
    case PipeDrains =>
    case PipeBreaks =>
    case TerminatedHook =>
    case _ => AfterwardsLowersRank(s, step, step.task);
  }

  /** The steps of afterExecute and behind it. */
  lemma AfterwardsLowersRank(s: State, step: Step, t: Task)
    requires Enabled(s, step)
    requires step == SeesFields(t) || step == TakesStatus(t) || step == LooksAtOther(t) || step == CancelsOther(t)
          || step == ClosesSafely(t) || step == WorkerExits(t)
    ensures Rank(Next(s, step)) < Rank(s)
  {
    hide ExitStatusOf, MainRank;
    var pc := WorkerOf(s, t);
    assert WorkerRank(WorkerOf(Next(s, step), t)) < WorkerRank(pc);
    assert WorkerOf(Next(s, step), Other(t)) == WorkerOf(s, Other(t));
    hide WorkerRank;
  }

  lemma {:induction false} RunLowersRank(s: State, steps: seq<Step>, end: State)
    requires Inv(s) && Run(s, steps) == Some(end)
    ensures Moves(steps) + Rank(end) <= Rank(s)
    decreases |steps|
  {
    if steps != [] {
      StepKeepsInv(s, steps[0]);
      assert MainInv(s);
      StepLowersRank(s, steps[0]);
      hide Inv, Next, Enabled, Rank, Refills;
      RunLowersRank(Next(s, steps[0]), steps[1..], end);
    }
  }

  /** Fills and drains of the pipe aside, no interleaving is longer than 26 steps. */
  lemma RunsAreShort(command: bool, steps: seq<Step>, s: State)
    requires Reaches(command, steps, s)
    ensures Moves(steps) <= 26
  {
    InitInv(command);
    RunLowersRank(Init(command), steps, s);
  }

  /** Steps that the client or the script's reading brings about. */
  predicate FromOutside(step: Step) {
    step.InputEnds? || step.PipeFills? || step.PipeDrains? || step.PipeBreaks?
  }

  /** Nothing can happen any more, unless the client sends something or the script reads. */
  ghost predicate Stuck(s: State) {
    forall step :: Enabled(s, step) ==> FromOutside(step)
  }

  /**
   No deadlock, though the stream handler may block for ever in reading an open socket or in writing to a full pipe:
   a session that can take no further step of its own has terminated, or answered its command, and its connection was
   closed exactly once after exactly one status.
   */
  lemma EverySessionEnds(command: bool, steps: seq<Step>, s: State)
    requires Reaches(command, steps, s) && Stuck(s)
    ensures if command then s.main.Answered? else s.terminated
    ensures !s.connected && s.closes == 1 && |s.statuses| == 1
  {
    ReachableInv(command, steps, s);
    InitInv(command);
    RunKeepsMain(Init(command), steps, s, command);
    assert TaskInv(s, Stream) && TaskInv(s, Invoke);
    assert !Enabled(s, MainGoesOn) && !Enabled(s, TerminatedHook);
    WorkerIsThrough(s, Invoke);
    WorkerIsThrough(s, Stream);
  }

  /** Where a worker can be when nothing moves. */
  lemma WorkerIsThrough(s: State, t: Task)
    requires Stuck(s) && TaskInv(s, t)
    ensures var pc := WorkerOf(s, t);
            || pc.NotStarted? || pc.Exited?
            || (pc.Idle? && !s.main.PoolShutDown?)
            || (pc.Running? && t.Stream? && s.connected)
            || (pc.Awaiting? && !FieldsAssigned(s))
  {
    assert !Enabled(s, Starts(t)) && !Enabled(s, SeesFields(t)) && !Enabled(s, TakesStatus(t));
    assert !Enabled(s, LooksAtOther(t)) && !Enabled(s, CancelsOther(t)) && !Enabled(s, ClosesSafely(t));
    assert !Enabled(s, WorkerExits(t)) && !Enabled(s, RunEnds(t, Finished));
  }

  // ----- why afterExecute must close -----

  /** The same steps, were the connection closed by the hook alone. */
  function NextLazily(s: State, step: Step): State
    requires Enabled(s, step)
  {
    if step.ClosesSafely? then WithWorker(s, step.task, Idle) else Next(s, step)
  }

  function RunLazily(s: State, steps: seq<Step>): Option<State>
    decreases |steps|
  {
    if steps == [] then Some(s)
    else if Enabled(s, steps[0]) then RunLazily(NextLazily(s, steps[0]), steps[1..])
    else None
  }

  lemma {:induction false} RunLazilySnoc(s: State, steps: seq<Step>, step: Step)
    requires RunLazily(s, steps).Some? && Enabled(RunLazily(s, steps).value, step)
    ensures RunLazily(s, steps + [step]) == Some(NextLazily(RunLazily(s, steps).value, step))
    decreases |steps|
  {
    if steps == [] {
      assert [] + [step] == [step] && [step][1..] == [];
    } else {
      RunLazilySnoc(NextLazily(s, steps[0]), steps[1..], step);
      assert (steps + [step])[1..] == steps[1..] + [step];
    }
  }

  predicate ReachesLazily(steps: seq<Step>, s: State) {
    RunLazily(Init(false), steps) == Some(s)
  }

  lemma TakeLazily(steps: seq<Step>, s: State, step: Step) returns (longer: seq<Step>, next: State)
    requires ReachesLazily(steps, s) && Enabled(s, step)
    ensures longer == steps + [step] && next == NextLazily(s, step) && ReachesLazily(longer, next)
  {
    RunLazilySnoc(Init(false), steps, step);
    longer, next := steps + [step], NextLazily(s, step);
  }

  /**
   It is the closing in afterExecute that ends a session: with the hook's alone, the script would end and its session
   hang, the stream handler waiting for input on the open socket, and the hook for the stream handler.
   */
  lemma ClosingInHookOnlyHangs(outcome: Outcome) returns (steps: seq<Step>, s: State)
    ensures ReachesLazily(steps, s) && Stuck(s)
    ensures s.invokeFuture == Completed(outcome) && s.input.Open? && s.connected && !s.terminated && s.statuses == []
  {
    hide ReachesLazily, ExitStatusOf, Stuck;
    steps, s := SubmittedLazily();
    steps, s := TakeLazily(steps, s, Starts(Invoke));
    steps, s := TakeLazily(steps, s, RunEnds(Invoke, outcome));
    var status := ExitStatusOf(Completed(outcome));
    var ended := State(PoolShutDown, New, Completed(outcome), Running, Awaiting, false, true, [], 0, Open, Flows, true);
    assert s == ended;
    steps, s := ClosesLazily(steps, ended, status);
    HungIsStuck(s);
  }

  lemma ClosesLazily(before: seq<Step>, ended: State, status: int) returns (steps: seq<Step>, s: State)
    requires ReachesLazily(before, ended) && ended.main.PoolShutDown? && ended.streamFuture.New?
    requires ended.invokeFuture.Completed? && ended.invokeWorker.Awaiting? && status == ExitStatusOf(ended.invokeFuture)
    ensures ReachesLazily(steps, s) && s == ended.(streamFuture := Cancelled, invokeWorker := Exited)
  {
    hide ReachesLazily, ExitStatusOf, MayEnd;
    steps, s := TakeLazily(before, ended, SeesFields(Invoke));
    steps, s := TakeLazily(steps, s, TakesStatus(Invoke));
    steps, s := TakeLazily(steps, s, LooksAtOther(Invoke));
    steps, s := TakeLazily(steps, s, CancelsOther(Invoke));
    steps, s := TakeLazily(steps, s, ClosesSafely(Invoke));
    steps, s := TakeLazily(steps, s, WorkerExits(Invoke));
  }

  lemma SubmittedLazily() returns (steps: seq<Step>, s: State)
    ensures ReachesLazily(steps, s)
    ensures s == State(PoolShutDown, New, New, Running, Submitted, false, true, [], 0, Open, Flows, true)
  {
    steps, s := [], Init(false);
    assert ReachesLazily(steps, s);
    hide ReachesLazily;
    steps, s := TakeLazily(steps, s, MainGoesOn);
    steps, s := TakeLazily(steps, s, MainGoesOn);
    steps, s := TakeLazily(steps, s, Starts(Stream));
    steps, s := TakeLazily(steps, s, MainGoesOn);
    steps, s := TakeLazily(steps, s, MainGoesOn);
    steps, s := TakeLazily(steps, s, MainGoesOn);
  }

  lemma HungIsStuck(s: State)
    requires s.main.PoolShutDown? && s.streamWorker.Running? && s.invokeWorker.Exited? && s.connected
    requires s.input.Open? && s.pipe.Flows?
    ensures Stuck(s)
  {
  }
}
