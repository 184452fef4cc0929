/** deploy/service_windows.go: the service handler, its worker goroutine and the
    one-slot error channel between them, as the steps of every interleaving. */
module Service {
  import opened Wrappers

  /** What the worker returns; errors.Is tells a cancellation from a failure. */
  datatype WorkerError = NoError | Canceled(id: nat) | Failed(id: nat)

  datatype ServiceState = StartPending | Running | StopPending | Stopped | OtherState(code: nat)

  datatype Status = Status(state: ServiceState, accepts: set<Command>)

  datatype Command = StopCommand | ShutdownCommand | InterrogateCommand | OtherCommand(code: nat)

  /** A control request and the current status it carries. */
  datatype ChangeRequest = ChangeRequest(cmd: Command, currentStatus: Status)

  /** Where Execute is: each value names the statement it is about to perform. */
  datatype Pc =
    | SendStartPending | Spawn | SendRunning | Select | SendEcho(status: Status)
    | SendStopPending | Cancel | AwaitWorker | SendStopped
    | SendErrStopPending(err: WorkerError) | SendErrStopped(err: WorkerError)
    | Returned(exitCode: nat)

  datatype Worker = NotStarted | Working | Finished(err: WorkerError) | Delivered

  /** `slot` is the buffer of errCh. The last four fields are history: what was echoed,
      what the worker returned, and how many values errCh carried. */
  datatype State = State(
    pc: Pc, worker: Worker, slot: Option<WorkerError>, canceled: bool, handlerErr: WorkerError, sent: seq<Status>,
    echoed: seq<Status>, result: Option<WorkerError>, puts: nat, gets: nat)

  const INIT := State(SendStartPending, NotStarted, None, false, NoError, [], [], None, 0, 0)

  const PENDING := Status(StartPending, {})
  const RUNNING := Status(Running, {StopCommand, ShutdownCommand})
  const STOPPING := Status(StopPending, {})
  const STOPPED := Status(Stopped, {})

  datatype Step =
    | Advance                            // Execute performs its next statement
    | Receive(request: ChangeRequest)    // the select takes a control request
    | TakeErr                            // the select, or the stop arm, takes from errCh
    | WorkerReturns(err: WorkerError)    // runFn returns, whenever and whatever it likes
    | WorkerSends                        // the goroutine puts the result in errCh

  /** The state after a step, if the step can happen. */
  function Next(s: State, step: Step): Option<State> {
    match step
    case Advance => Advanced(s)
    case Receive(r) =>
      if !s.pc.Select? then None
      else (match r.cmd
            case InterrogateCommand => Some(s.(pc := SendEcho(r.currentStatus)))
            case StopCommand => Some(s.(pc := SendStopPending))
            case ShutdownCommand => Some(s.(pc := SendStopPending))
            case OtherCommand(_) => Some(s))
    case TakeErr =>
      if s.slot.None? then None
      else if s.pc.Select? then
        Some(s.(pc := SendErrStopPending(s.slot.value), slot := None, handlerErr := s.slot.value, gets := s.gets + 1))
      else if s.pc.AwaitWorker? then
        var err := if s.slot.value.Failed? then s.slot.value else s.handlerErr;
        Some(s.(pc := SendStopped, slot := None, handlerErr := err, gets := s.gets + 1))
      else None
    case WorkerReturns(err) =>
      if s.worker.Working? then Some(s.(worker := Finished(err), result := Some(err))) else None
    case WorkerSends =>
      if s.worker.Finished? && s.slot.None?
      then Some(s.(worker := Delivered, slot := Some(s.worker.err), puts := s.puts + 1))
      else None
  }

  function Advanced(s: State): Option<State> {
    match s.pc
    case SendStartPending => Some(s.(pc := Spawn, sent := s.sent + [PENDING]))
    case Spawn => Some(s.(pc := SendRunning, worker := Working))
    case SendRunning => Some(s.(pc := Select, sent := s.sent + [RUNNING]))
    case SendEcho(status) => Some(s.(pc := Select, sent := s.sent + [status], echoed := s.echoed + [status]))
    case SendStopPending => Some(s.(pc := Cancel, sent := s.sent + [STOPPING]))
    case Cancel => Some(s.(pc := AwaitWorker, canceled := true))
    case SendStopped => Some(s.(pc := Returned(0), sent := s.sent + [STOPPED]))
    case SendErrStopPending(err) => Some(s.(pc := SendErrStopped(err), sent := s.sent + [STOPPING]))
    case SendErrStopped(err) =>
      Some(s.(pc := Returned(if err.Failed? then 1 else 0), canceled := true, sent := s.sent + [STOPPED]))
    case _ => None
  }

  /** Some interleaving of handler, worker and service manager. */
  ghost predicate IsRun(states: seq<State>, steps: seq<Step>) {
    && |states| == |steps| + 1 && states[0] == INIT
    && forall i :: 0 <= i < |steps| ==> Next(states[i], steps[i]) == Some(states[i + 1])
  }

  // ----- what every step keeps --------------------------------------------------------------

  /** The statuses sent so far, told from where the handler is. */
  function SentBy(pc: Pc, echoed: seq<Status>): seq<Status> {
    match pc
    case SendStartPending => []
    case Spawn => [PENDING]
    case SendRunning => [PENDING]
    case Select => [PENDING, RUNNING] + echoed
    case SendEcho(_) => [PENDING, RUNNING] + echoed
    case SendStopPending => [PENDING, RUNNING] + echoed
    case SendErrStopPending(_) => [PENDING, RUNNING] + echoed
    case Cancel => [PENDING, RUNNING] + echoed + [STOPPING]
    case AwaitWorker => [PENDING, RUNNING] + echoed + [STOPPING]
    case SendStopped => [PENDING, RUNNING] + echoed + [STOPPING]
    case SendErrStopped(_) => [PENDING, RUNNING] + echoed + [STOPPING]
    case Returned(_) => [PENDING, RUNNING] + echoed + [STOPPING] + [STOPPED]
  }

  /** The handler has taken the worker's result. */
  predicate Taken(pc: Pc) {
    pc.SendStopped? || pc.SendErrStopPending? || pc.SendErrStopped? || pc.Returned?
  }

  /** handlerErr tells failures apart from everything else, whichever arm took the result. */
  predicate Agrees(handlerErr: WorkerError, result: WorkerError) {
    if result.Failed? then handlerErr == result else !handlerErr.Failed?
  }

  ghost predicate Inv(s: State) {
    && s.sent == SentBy(s.pc, s.echoed)
    && (s.worker.NotStarted? <==> s.pc.SendStartPending? || s.pc.Spawn?)
    && (s.result.Some? <==> s.worker.Finished? || s.worker.Delivered?)
    && (s.worker.Finished? ==> s.result == Some(s.worker.err))
    && (s.slot.Some? ==> s.slot == s.result)
    && s.puts == (if s.worker.Delivered? then 1 else 0)
    && s.gets == (if Taken(s.pc) then 1 else 0)
    && (s.slot.Some? <==> s.puts == 1 && s.gets == 0)
    && (Taken(s.pc) ==> s.worker.Delivered? && Agrees(s.handlerErr, s.result.value))
    && (!Taken(s.pc) ==> s.handlerErr == NoError)
    && (s.pc.SendErrStopPending? ==> s.result == Some(s.pc.err))
    && (s.pc.SendErrStopped? ==> s.result == Some(s.pc.err))
    && (s.pc.AwaitWorker? || s.pc.SendStopped? || s.pc.Returned? ==> s.canceled)
    && (s.pc.SendStartPending? || s.pc.Spawn? || s.pc.SendRunning? ==> s.echoed == [])
  }

  lemma StepKeepsInv(s: State, step: Step)
    requires Inv(s) && Next(s, step).Some?
    ensures Inv(Next(s, step).value)
  {
    match step {
      case Advance => AdvanceKeepsInv(s);
      case Receive(r) =>
      case TakeErr =>
      case WorkerReturns(e) =>
      case WorkerSends =>
    }
  }

  lemma AdvanceSends(s: State)
    requires s.sent == SentBy(s.pc, s.echoed) && Advanced(s).Some?
    requires s.pc.SendRunning? ==> s.echoed == []
    ensures Advanced(s).value.sent == SentBy(Advanced(s).value.pc, Advanced(s).value.echoed)
  {
    var t := Advanced(s).value;
    if s.pc.SendRunning? {
      assert [PENDING] + [RUNNING] == [PENDING, RUNNING] + [];
    } else if s.pc.SendEcho? {
      assert [PENDING, RUNNING] + s.echoed + [s.pc.status] == [PENDING, RUNNING] + t.echoed;
    }
  }

  lemma AdvanceKeepsInv(s: State)
    requires Inv(s) && Advanced(s).Some?
    ensures Inv(Advanced(s).value)
  {
    AdvanceSends(s);
    hide SentBy;
  }

  lemma {:induction false} RunKeepsInv(states: seq<State>, steps: seq<Step>, i: nat)
    requires IsRun(states, steps) && i < |states|
    ensures Inv(states[i])
  {
    if i > 0 {
      RunKeepsInv(states, steps, i - 1);
      assert Next(states[i - 1], steps[i - 1]) == Some(states[i]);
      StepKeepsInv(states[i - 1], steps[i - 1]);
    }
  }

  // ----- what happened, told from the steps alone ----------------------------------------------

  predicate Interrogates(step: Step) {
    step.Receive? && step.request.cmd.InterrogateCommand?
  }

  /** The statuses the interrogate requests carried, in order of arrival. */
  function Interrogated(steps: seq<Step>): seq<Status> {
    if steps == [] then []
    else
      var last := steps[|steps| - 1];
      Interrogated(steps[..|steps| - 1]) +
      if Interrogates(last) then [last.request.currentStatus] else []
  }

  predicate IsStop(step: Step) {
    step.Receive? && (step.request.cmd.StopCommand? || step.request.cmd.ShutdownCommand?)
  }

  predicate StopReceived(steps: seq<Step>) {
    exists i :: 0 <= i < |steps| && IsStop(steps[i])
  }

  /** What runFn returned, each time it did. */
  function Results(steps: seq<Step>): seq<WorkerError> {
    if steps == [] then []
    else
      var last := steps[|steps| - 1];
      Results(steps[..|steps| - 1]) + if last.WorkerReturns? then [last.err] else []
  }

  function Occurrences(steps: seq<Step>, step: Step): nat {
    if steps == [] then 0
    else Occurrences(steps[..|steps| - 1], step) + if steps[|steps| - 1] == step then 1 else 0
  }

  /** The handler is on the path a stop request puts it on. */
  predicate Stopping(pc: Pc) {
    pc.SendStopPending? || pc.Cancel? || pc.AwaitWorker? || pc.SendStopped?
  }

  /** The state's history fields are the history: echoes are the interrogations
      (one may still be owed), errCh carried what the steps put in and took out, and
      the exit code tells which arm of the select ended the loop. */
  ghost predicate Explained(s: State, steps: seq<Step>) {
    && s.echoed + (if s.pc.SendEcho? then [s.pc.status] else []) == Interrogated(steps)
    && Results(steps) == (if s.result.Some? then [s.result.value] else [])
    && Occurrences(steps, WorkerSends) == s.puts
    && Occurrences(steps, TakeErr) == s.gets
    && (Stopping(s.pc) ==> StopReceived(steps))
    && (!Stopping(s.pc) && !s.pc.Returned? ==> !StopReceived(steps))
    && (s.pc.Returned? ==>
      s.result.Some? && s.pc.exitCode == if s.result.value.Failed? && !StopReceived(steps) then 1 else 0)
  }

  lemma StopReceivedAppend(steps: seq<Step>, step: Step)
    ensures StopReceived(steps + [step]) <==> StopReceived(steps) || IsStop(step)
  {
    if StopReceived(steps) {
      var i :| 0 <= i < |steps| && IsStop(steps[i]);
      assert (steps + [step])[i] == steps[i];
    }
    assert (steps + [step])[|steps|] == step;
  }

  lemma HistoryAppend(steps: seq<Step>, step: Step)
    ensures Interrogated(steps + [step]) == Interrogated(steps) +
      if Interrogates(step) then [step.request.currentStatus] else []
    ensures Results(steps + [step]) == Results(steps) + if step.WorkerReturns? then [step.err] else []
    ensures Occurrences(steps + [step], WorkerSends) ==
      Occurrences(steps, WorkerSends) + if step.WorkerSends? then 1 else 0
    ensures Occurrences(steps + [step], TakeErr) == Occurrences(steps, TakeErr) + if step.TakeErr? then 1 else 0
  {
    assert (steps + [step])[..|steps|] == steps;
  }

  lemma StepExplains(s: State, steps: seq<Step>, step: Step)
    requires Inv(s) && Explained(s, steps) && Next(s, step).Some?
    ensures Explained(Next(s, step).value, steps + [step])
  {
    StopReceivedAppend(steps, step);
    HistoryAppend(steps, step);
    hide StopReceived, SentBy, Agrees, Interrogated, Results, Occurrences;
    match step {
      case Advance => hide IsStop;
      case Receive(r) =>
      case TakeErr => hide IsStop, Advanced;
      case WorkerReturns(e) => hide IsStop, Advanced;
      case WorkerSends => hide IsStop, Advanced;
    }
  }

  lemma {:induction false} RunExplains(states: seq<State>, steps: seq<Step>, i: nat)
    requires IsRun(states, steps) && i < |states|
    ensures Explained(states[i], steps[..i])
  {
    hide *;
    if i == 0 {
      RunStart(states, steps);
      assert steps[..i] == [];
    } else {
      RunStep(states, steps, i - 1);
      RunExplains(states, steps, i - 1);
      RunKeepsInv(states, steps, i - 1);
      StepExplains(states[i - 1], steps[..i - 1], steps[i - 1]);
      assert steps[..i - 1] + [steps[i - 1]] == steps[..i];
    }
  }

  lemma RunStart(states: seq<State>, steps: seq<Step>)
    requires IsRun(states, steps)
    ensures Explained(states[0], [])
  {
  }

  lemma RunStep(states: seq<State>, steps: seq<Step>, i: nat)
    requires IsRun(states, steps) && i < |states| - 1
    ensures |states| == |steps| + 1 && Next(states[i], steps[i]) == Some(states[i + 1])
  {
  }

  // ----- every interleaving ---------------------------------------------------------------------

  /** Every finished run reports start-pending, running, one echo per interrogation in
      order, stop-pending and stopped; the worker has returned exactly once by then,
      its result went through errCh exactly once, and its context is cancelled. */
  lemma {:induction false} FinishedRun(states: seq<State>, steps: seq<Step>)
    requires IsRun(states, steps) && states[|steps|].pc.Returned?
    ensures var end := states[|steps|];
      && end.sent == [PENDING, RUNNING] + Interrogated(steps) + [STOPPING, STOPPED]
      && end.canceled && end.slot.None?
      && |Results(steps)| == Occurrences(steps, WorkerSends) == Occurrences(steps, TakeErr) == 1
  {
    RunKeepsInv(states, steps, |steps|);
    RunExplains(states, steps, |steps|);
    assert steps[..|steps|] == steps;
    assert [STOPPING] + [STOPPED] == [STOPPING, STOPPED];
  }

  // ----- when stopped is reported ---------------------------------------------------------------

  /** If stopped was reported, the worker had returned and its result had been taken. */
  ghost predicate StoppedIsLate(s: State, steps: seq<Step>) {
    STOPPED in s.sent ==> |Results(steps)| == 1 && Occurrences(steps, TakeErr) == 1
  }

  ghost predicate StoppedAlwaysLate(states: seq<State>, steps: seq<Step>) {
    forall i :: 0 <= i < |states| && i <= |steps| ==> StoppedIsLate(states[i], steps[..i])
  }

  /** At any one moment stopped is early exactly when an echo said it and the handler has not
      taken the worker's result: the handler itself never says it early. */
  lemma StoppedAtMoment(s: State, steps: seq<Step>)
    requires Inv(s) && Explained(s, steps)
    ensures !StoppedIsLate(s, steps) <==> STOPPED in s.echoed && !Taken(s.pc)
    ensures STOPPED in s.sent && STOPPED !in Interrogated(steps) ==> StoppedIsLate(s, steps)
  {
    hide Interrogated, Results, Occurrences, StopReceived, Stopping, Agrees;
    if !Taken(s.pc) {
      assert STOPPED in s.sent <==> STOPPED in s.echoed;
    }
  }

  /** An echo is added at the end, by a handler that goes back to its select. */
  lemma StepEchoes(s: State, step: Step)
    requires Next(s, step).Some?
    ensures var t := Next(s, step).value;
      t.echoed == s.echoed || (t.pc.Select? && exists status :: t.echoed == s.echoed + [status])
  {
    if s.pc.SendEcho? && step.Advance? {
      assert Next(s, step).value.echoed == s.echoed + [s.pc.status];
    }
  }

  lemma {:induction false} EchoesStay(states: seq<State>, steps: seq<Step>, i: nat, j: nat)
    requires IsRun(states, steps) && i <= j < |states|
    ensures STOPPED in states[i].echoed ==> STOPPED in states[j].echoed
  {
    if i < j {
      hide Next;
      EchoesStay(states, steps, i, j - 1);
      RunStep(states, steps, j - 1);
      StepEchoes(states[j - 1], steps[j - 1]);
    }
  }

  /** The moment an echo first said stopped, the handler is back in its select. */
  lemma {:induction false} FirstStoppedEcho(states: seq<State>, steps: seq<Step>, j: nat) returns (i: nat)
    requires IsRun(states, steps) && j < |states| && STOPPED in states[j].echoed
    ensures i <= j && STOPPED in states[i].echoed && states[i].pc.Select?
  {
    StartEchoes(states, steps);
    hide Next;
    if STOPPED in states[j - 1].echoed {
      i := FirstStoppedEcho(states, steps, j - 1);
    } else {
      RunStep(states, steps, j - 1);
      StepEchoes(states[j - 1], steps[j - 1]);
      i := j;
    }
  }

  lemma RunStoppedAtMoment(states: seq<State>, steps: seq<Step>, i: nat)
    requires IsRun(states, steps) && i < |states|
    ensures i <= |steps|
    ensures !StoppedIsLate(states[i], steps[..i]) <==> STOPPED in states[i].echoed && !Taken(states[i].pc)
    ensures STOPPED in states[i].sent && STOPPED !in Interrogated(steps[..i]) ==> StoppedIsLate(states[i], steps[..i])
  {
    hide Next, Inv, Explained, Interrogated, StoppedIsLate, Taken;
    RunKeepsInv(states, steps, i);
    RunExplains(states, steps, i);
    StoppedAtMoment(states[i], steps[..i]);
  }

  /** Over a whole run, stopped is never reported before the worker's result was taken exactly
      when no echo said stopped. In a finished run every interrogation has been echoed. */
  lemma {:induction false} StoppedAfterWorker(states: seq<State>, steps: seq<Step>)
    requires IsRun(states, steps)
    ensures StoppedAlwaysLate(states, steps) <==> STOPPED !in states[|steps|].echoed
    ensures states[|steps|].pc.Returned? ==>
      (StoppedAlwaysLate(states, steps) <==> STOPPED !in Interrogated(steps))
  {
    hide Next, Inv, StoppedIsLate, Interrogated, Results, Occurrences;
    var n := |steps|;
    if STOPPED in states[n].echoed {
      var i := FirstStoppedEcho(states, steps, n);
      RunStoppedAtMoment(states, steps, i);
    } else {
      forall i | 0 <= i < |states| ensures StoppedIsLate(states[i], steps[..i]) {
        EchoesStay(states, steps, i, n);
        RunStoppedAtMoment(states, steps, i);
      }
    }
    RunExplains(states, steps, n);
    assert steps[..n] == steps && (states[n].pc.Returned? ==> states[n].echoed + [] == states[n].echoed);
  }

  /** An interrogation that carries stopped is what it takes: it comes back while the
      worker still runs. */
  lemma {:induction false} EchoMayReportStopped() returns (states: seq<State>, steps: seq<Step>)
    ensures IsRun(states, steps) && STOPPED in states[|steps|].sent && Results(steps) == []
  {
    states, steps := Started();
    hide Results, IsRun;
    states, steps := Extend(states, steps, Receive(ChangeRequest(InterrogateCommand, STOPPED)));
    states, steps := Extend(states, steps, Advance);
  }

  /** An interrogation carries a status the handler has sent, or the very latest. */
  predicate CarriesSent(s: State, step: Step) {
    Interrogates(step) ==> step.request.currentStatus in s.sent
  }

  predicate CarriesLatest(s: State, step: Step) {
    Interrogates(step) ==> s.sent != [] && step.request.currentStatus == s.sent[|s.sent| - 1]
  }

  ghost predicate GivesBackSent(states: seq<State>, steps: seq<Step>) {
    forall i :: 0 <= i < |steps| && i < |states| ==> CarriesSent(states[i], steps[i])
  }

  ghost predicate GivesBackLatest(states: seq<State>, steps: seq<Step>) {
    forall i :: 0 <= i < |steps| && i < |states| ==> CarriesLatest(states[i], steps[i])
  }

  /** What the handler has echoed, and what it owes. */
  function Echoes(s: State): seq<Status> {
    s.echoed + if s.pc.SendEcho? then [s.pc.status] else []
  }

  ghost predicate EchoesOnly(s: State, own: set<Status>) {
    forall status <- Echoes(s) :: status in own
  }

  lemma EchoTurn(s: State, step: Step, own: set<Status>)
    requires Next(s, step).Some? && EchoesOnly(s, own)
    requires Interrogates(step) ==> step.request.currentStatus in own
    ensures EchoesOnly(Next(s, step).value, own)
  {
  }

  lemma SentInSelect(s: State)
    requires Inv(s) && s.pc.Select?
    ensures s.sent == [PENDING, RUNNING] + Echoes(s)
  {
  }

  lemma SentTurn(s: State, step: Step)
    requires Inv(s) && Next(s, step).Some? && EchoesOnly(s, {PENDING, RUNNING}) && CarriesSent(s, step)
    ensures EchoesOnly(Next(s, step).value, {PENDING, RUNNING})
  {
    if Interrogates(step) { SentInSelect(s); }
    hide Inv, Next, Echoes;
    EchoTurn(s, step, {PENDING, RUNNING});
  }

  lemma LatestTurn(s: State, step: Step)
    requires Inv(s) && Next(s, step).Some? && EchoesOnly(s, {RUNNING}) && CarriesLatest(s, step)
    ensures EchoesOnly(Next(s, step).value, {RUNNING})
  {
    if Interrogates(step) { SentInSelect(s); }
    hide Inv, Next, Echoes;
    EchoTurn(s, step, {RUNNING});
  }

  lemma StartEchoes(states: seq<State>, steps: seq<Step>)
    requires IsRun(states, steps)
    ensures states[0].echoed == [] && Echoes(states[0]) == []
  {
  }

  /** A dispatcher that gives back only what the handler sent is echoed nothing but
      start-pending and running. */
  lemma {:induction false} SentIsEchoed(states: seq<State>, steps: seq<Step>, i: nat)
    requires IsRun(states, steps) && GivesBackSent(states, steps) && i < |states|
    ensures EchoesOnly(states[i], {PENDING, RUNNING})
  {
    hide IsRun, Next, Inv, Echoes, CarriesSent;
    if i == 0 {
      StartEchoes(states, steps);
    } else {
      RunStep(states, steps, i - 1);
      hide EchoesOnly;
      RunKeepsInv(states, steps, i - 1);
      SentIsEchoed(states, steps, i - 1);
      SentTurn(states[i - 1], steps[i - 1]);
    }
  }

  /** One that gives back the latest is echoed nothing but running. */
  lemma {:induction false} LatestIsRunning(states: seq<State>, steps: seq<Step>, i: nat)
    requires IsRun(states, steps) && GivesBackLatest(states, steps) && i < |states|
    ensures EchoesOnly(states[i], {RUNNING})
  {
    hide IsRun, Next, Inv, Echoes, CarriesLatest;
    if i == 0 {
      StartEchoes(states, steps);
    } else {
      RunStep(states, steps, i - 1);
      hide EchoesOnly;
      RunKeepsInv(states, steps, i - 1);
      LatestIsRunning(states, steps, i - 1);
      LatestTurn(states[i - 1], steps[i - 1]);
    }
  }

  lemma EchoedAmongEchoes(s: State)
    ensures forall status <- s.echoed :: status in Echoes(s)
  {
  }

  /** So under either dispatcher stopped is only ever reported after the worker's result
      was taken. */
  lemma {:induction false} DispatcherSeesStoppedLast(states: seq<State>, steps: seq<Step>)
    requires IsRun(states, steps) && (GivesBackSent(states, steps) || GivesBackLatest(states, steps))
    ensures StoppedAlwaysLate(states, steps)
  {
    hide Next, Inv, StoppedAlwaysLate, GivesBackSent, GivesBackLatest, Echoes;
    var end := states[|steps|];
    if GivesBackSent(states, steps) {
      SentIsEchoed(states, steps, |steps|);
    } else {
      LatestIsRunning(states, steps, |steps|);
    }
    EchoedAmongEchoes(end);
    StoppedAfterWorker(states, steps);
  }

  datatype Outcome = Success | DispatcherError(id: nat) | HandlerError(err: WorkerError)

  /** RunWindowsService, given what svc.Run returned and what the handler recorded. */
  function RunWindowsService(svcRun: Option<nat>, handlerErr: WorkerError): Outcome {
    if svcRun.Some? then DispatcherError(svcRun.value)
    else if handlerErr.Failed? then HandlerError(handlerErr)
    else Success
  }

  /** When the dispatcher succeeds, the caller sees exactly the worker's failure, whichever
      arm of the select took it: nil and cancellation are success, anything else comes
      back unchanged. */
  lemma {:induction false} CallerSeesWorkerFailure(states: seq<State>, steps: seq<Step>)
    requires IsRun(states, steps) && states[|steps|].pc.Returned?
    ensures |Results(steps)| == 1
    ensures var err := Results(steps)[0];
      RunWindowsService(None, states[|steps|].handlerErr) == if err.Failed? then HandlerError(err) else Success
  {
    RunKeepsInv(states, steps, |steps|);
    RunExplains(states, steps, |steps|);
    assert steps[..|steps|] == steps;
  }

  /** However the run went, a dispatcher failure is what the caller gets; only without one does
      the worker's result decide. */
  lemma {:induction false} CallerSees(states: seq<State>, steps: seq<Step>, svcRun: Option<nat>)
    requires IsRun(states, steps) && states[|steps|].pc.Returned?
    ensures var r := RunWindowsService(svcRun, states[|steps|].handlerErr);
      && (forall id: nat :: svcRun == Some(id) <==> r == DispatcherError(id))
      && (r == Success <==> svcRun.None? && forall id: nat :: Failed(id) !in Results(steps))
      && (forall id: nat :: r == HandlerError(Failed(id)) <==> svcRun.None? && Failed(id) in Results(steps))
  {
    CallerSeesWorkerFailure(states, steps);
    assert Results(steps) == [Results(steps)[0]];
  }

  /** What the service manager sees of a finished run, spelled out: while running, stop and
      shutdown are accepted; in every other state the handler reports itself, nothing is. */
  lemma {:induction false} StatusesSpelledOut(states: seq<State>, steps: seq<Step>)
    requires IsRun(states, steps) && states[|steps|].pc.Returned?
    ensures states[|steps|].sent ==
      [Status(StartPending, {}), Status(Running, {StopCommand, ShutdownCommand})] + Interrogated(steps)
      + [Status(StopPending, {}), Status(Stopped, {})]
  {
    FinishedRun(states, steps);
  }

  /** After a stop or a shutdown request the loop takes nothing more, and the exit code is 0. */
  lemma {:induction false} StopEndsTheLoop(
    states: seq<State>, steps: seq<Step>, i: nat, j: nat, cmd: Command, status: Status)
    requires IsRun(states, steps) && i < j < |states| && i < |steps|
    requires steps[i] == Receive(ChangeRequest(cmd, status)) && (cmd == StopCommand || cmd == ShutdownCommand)
    ensures !states[j].pc.Select? && !states[j].pc.SendEcho?
    ensures states[j].pc.Returned? ==> states[j].pc.exitCode == 0
  {
    RunExplains(states, steps, j);
    assert steps[..j][i] == steps[i] && IsStop(steps[i]);
    assert StopReceived(steps[..j]);
    hide IsRun, Interrogated, Results, Occurrences, StopReceived;
  }

  /** Any other request but an interrogation changes nothing. */
  lemma OtherRequestsIgnored(s: State, code: nat, status: Status)
    requires s.pc.Select?
    ensures Next(s, Receive(ChangeRequest(OtherCommand(code), status))) == Some(s)
  {
  }

  /** The service manager is told less: the exit code is 1 exactly when the worker failed
      and no stop or shutdown request had been taken. */
  lemma {:induction false} ExitCodeMeaning(states: seq<State>, steps: seq<Step>)
    requires IsRun(states, steps) && states[|steps|].pc.Returned?
    ensures |Results(steps)| == 1
    ensures states[|steps|].pc.exitCode == if Results(steps)[0].Failed? && !StopReceived(steps) then 1 else 0
  {
    RunExplains(states, steps, |steps|);
    assert steps[..|steps|] == steps;
  }

  const STOP_REQUEST := ChangeRequest(StopCommand, RUNNING)

  /** A worker that fails while being stopped: the caller gets the error, the manager gets 0. */
  lemma {:induction false} StopHidesFailureFromManager() returns (states: seq<State>, steps: seq<Step>)
    ensures IsRun(states, steps) && states[|steps|].pc == Returned(0)
    ensures Results(steps) == [Failed(7)]
    ensures RunWindowsService(None, states[|steps|].handlerErr) == HandlerError(Failed(7))
  {
    states, steps := StoppingWhileWorking();
    hide Results, IsRun;
    states, steps := Extend(states, steps, WorkerReturns(Failed(7)));
    states, steps := Extend(states, steps, WorkerSends);
    states, steps := Extend(states, steps, TakeErr);
    states, steps := Extend(states, steps, Advance);
  }

  lemma StoppingWhileWorking() returns (states: seq<State>, steps: seq<Step>)
    ensures IsRun(states, steps) && Results(steps) == []
    ensures states[|steps|] ==
      INIT.(pc := AwaitWorker, worker := Working, canceled := true, sent := states[|steps|].sent)
  {
    states, steps := Started();
    hide Results, IsRun;
    states, steps := Extend(states, steps, Receive(STOP_REQUEST));
    states, steps := Extend(states, steps, Advance);
    states, steps := Extend(states, steps, Advance);
  }

  lemma Started() returns (states: seq<State>, steps: seq<Step>)
    ensures IsRun(states, steps) && Results(steps) == []
    ensures states[|steps|] == INIT.(pc := Select, worker := Working, sent := states[|steps|].sent)
  {
    states, steps := [INIT], [];
    assert Results(steps) == [] && IsRun(states, steps);
    hide Results, IsRun;
    states, steps := Extend(states, steps, Advance);
    states, steps := Extend(states, steps, Advance);
    states, steps := Extend(states, steps, Advance);
  }

  lemma Extend(states: seq<State>, steps: seq<Step>, step: Step) returns (states': seq<State>, steps': seq<Step>)
    requires IsRun(states, steps) && Next(states[|steps|], step).Some?
    ensures steps' == steps + [step] && states' == states + [Next(states[|steps|], step).value]
    ensures states'[|steps'|] == Next(states[|steps|], step).value
    ensures IsRun(states', steps') && Results(steps') == Results(steps) + if step.WorkerReturns? then [step.err] else []
  {
    steps' := steps + [step];
    states' := states + [Next(states[|steps|], step).value];
    assert steps'[..|steps|] == steps;
  }

  // ----- progress ------------------------------------------------------------------------------

  /** Neither the handler nor the goroutine can move by itself. */
  predicate Quiet(s: State) {
    Next(s, Advance).None? && Next(s, TakeErr).None? && Next(s, WorkerSends).None?
  }

  /** No deadlock: nothing moves only when Execute has returned, or when runFn is still
      running and the handler waits for it or for a request; while it waits for runFn
      alone, runFn's context has been cancelled. The goroutine's send never blocks. */
  lemma {:induction false} OnlyTheWorkerIsAwaited(states: seq<State>, steps: seq<Step>, i: nat)
    requires IsRun(states, steps) && i < |states|
    ensures Quiet(states[i]) <==>
      (states[i].pc.Returned? || (states[i].worker.Working? && (states[i].pc.Select? || states[i].pc.AwaitWorker?)))
    ensures states[i].pc.AwaitWorker? ==> states[i].canceled
    ensures states[i].worker.Finished? ==> Next(states[i], WorkerSends).Some?
    ensures states[i].pc.Returned? ==> states[i].worker.Delivered?
  {
    RunKeepsInv(states, steps, i);
  }

  function Rank(s: State): nat {
    (match s.pc
     case Returned(_) => 0
     case SendStopped => 1
     case SendErrStopped(_) => 1
     case AwaitWorker => 2
     case SendErrStopPending(_) => 2
     case Cancel => 3
     case SendStopPending => 4
     case Select => 5
     case SendEcho(_) => 6
     case SendRunning => 6
     case Spawn => 7
     case SendStartPending => 8)
    + (match s.worker case NotStarted => 2 case Working => 2 case Finished(_) => 1 case Delivered => 0)
  }

  /** The steps that are not requests leaving the loop where it was. */
  function Work(steps: seq<Step>): nat {
    if steps == [] then 0
    else
      var last := steps[|steps| - 1];
      Work(steps[..|steps| - 1]) + if last.Receive? && !IsStop(last) then 0 else 1
  }

  lemma StepLowersRank(s: State, step: Step)
    requires Inv(s) && Next(s, step).Some?
    ensures Rank(Next(s, step).value) + (if step.Receive? && !IsStop(step) then 0 else 1)
      <= Rank(s) + if Interrogates(step) then 1 else 0
  {
  }

  /** No run goes on for ever by itself: apart from ignored requests and one extra send
      per interrogation, at most ten steps happen in all. */
  lemma {:induction false} RunsEnd(states: seq<State>, steps: seq<Step>, i: nat)
    requires IsRun(states, steps) && i < |states|
    ensures Work(steps[..i]) + Rank(states[i]) <= 10 + |Interrogated(steps[..i])|
  {
    if i > 0 {
      RunsEnd(states, steps, i - 1);
      assert Next(states[i - 1], steps[i - 1]) == Some(states[i]);
      RunKeepsInv(states, steps, i - 1);
      StepLowersRank(states[i - 1], steps[i - 1]);
      hide Next, Inv, Rank;
      assert steps[..i][..i - 1] == steps[..i - 1];
    }
  }
}
