/** The coordinator composed with the clients of one benchmark: the driver's load, the stop client, the driver's warm
    pass, one after another.  Each exchange writes a request to one queue and waits for a line on the other.

    Client, coordinator, the coordinator's read timeout and, after a failure, the end of the benchmark's process interleave
    freely.
*/
module PhaseHandshake {
  import opened Text
  import opened LineReader
  import opened PhaseControl

  /** Where the sequence of clients is. */
  datatype Client =
    | Fresh
    | Asking(phase: string)      // READY sent
    | Working(phase: string)     // measured work
    | Reporting(phase: string)   // WORK_DONE sent
    | Loaded                     // a load pass is acknowledged
    | Stopping                   // STOP sent
    | Between                    // the load phase is stopped
    | Finished
    | Refused                    // a reply was not the one awaited
    | Terminated                 // killed by a coordinator that has given up

  /** The phases whose counter runs, as the coordinator's perf processes were told. */
  datatype System = System(client: Client, requests: seq<string>, replies: seq<string>, coordinator: Progress,
                           counters: set<string>)

  const Initial := System(Fresh, [], [], At(State(false, 0)), {})

  datatype Step =
    | ClientMoves(pid: string, again: bool)
    | CoordinatorReads(perfOk: bool)
    | CoordinatorTimesOut
    | ChildTerminated

  function Send(s: System, client: Client, event: string, phase: string, pid: string): System {
    s.(client := client, requests := s.requests + [Render(event, phase, pid)])
  }

  function Await(s: System, reply: string, client: Client): System {
    if s.replies == [] then s
    else s.(client := if s.replies[0] == reply then client else Refused, replies := s.replies[1..])
  }

  function MoveClient(s: System, pid: string, again: bool): System {
    match s.client
    case Fresh => Send(s, Asking("load"), "READY", "load", pid)
    case Asking(phase) => Await(s, "GO " + phase, Working(phase))
    case Working(phase) => Send(s, Reporting(phase), "WORK_DONE", phase, pid)
    case Reporting(phase) =>
      if phase == "warm" then Await(s, "DONE " + phase, Finished) else Await(s, "ACK " + phase, Loaded)
    case Loaded => if again then s.(client := Working("load")) else Send(s, Stopping, "STOP", "load", pid)
    case Stopping => Await(s, "DONE load", Between)
    case Between => Send(s, Asking("warm"), "READY", "warm", pid)
    case Finished => s
    case Refused => s
    case Terminated => s
  }

  function Act(counters: set<string>, actions: seq<Action>): set<string>
    decreases |actions|
  {
    if actions == [] then counters
    else
      Act(if actions[0].Enable? then counters + {actions[0].phase} else counters - {actions[0].phase}, actions[1..])
  }

  /** The coordinator gives up: it kills the perf process at once, and the benchmark's process later. */
  function GiveUp(s: System): System { s.(coordinator := Failed, counters := {}) }

  /** The coordinator waits for a message. */
  predicate Waits(s: System) { s.coordinator.At? && s.coordinator.state.index < |PHASES| && s.requests == [] }

  function Next(s: System, step: Step): System {
    match step
    case ClientMoves(pid, again) => if IsDigits(pid) then MoveClient(s, pid, again) else s
    case CoordinatorReads(perfOk) =>
      if s.coordinator.Failed? || s.coordinator.state.index >= |PHASES| || s.requests == [] then s
      else
        var turn := Take(s.coordinator.state, Input(Line(s.requests[0]), perfOk));
        var s := s.(requests := s.requests[1..]);
        if turn.Fails? then GiveUp(s)
        else s.(coordinator := At(turn.next), replies := s.replies + [turn.reply],
                counters := Act(s.counters, turn.actions))
    case CoordinatorTimesOut => if Waits(s) then GiveUp(s) else s
    case ChildTerminated => if s.coordinator.Failed? then s.(client := Terminated) else s
  }

  ghost function Run(steps: seq<Step>): System
    decreases |steps|
  {
    if steps == [] then Initial else Next(Run(steps[..|steps| - 1]), steps[|steps| - 1])
  }

  // ----- the invariant -----

  predicate Asks(s: System, event: string, phase: string) {
    |s.requests| == 1 && Parse(s.requests[0]) == Message(event, phase) && s.replies == []
  }

  predicate Quiet(s: System) { s.requests == [] && s.replies == [] }

  predicate IsAt(s: System, active: bool, index: nat) {
    && s.coordinator == At(State(active, index))
    && s.counters == (if active && index < |PHASES| then {PHASES[index]} else {})
  }

  /** An exchange in flight: the request is unread and the coordinator is as before it, or the reply is unread and it is
      as after it.
  */
  predicate Exchanges(s: System, event: string, phase: string, was: State, now: State) {
    || (Asks(s, event, phase) && IsAt(s, was.active, was.index))
    || (s.requests == [] && s.replies == [Awaited(event, phase)] && IsAt(s, now.active, now.index))
  }

  predicate IsPhase(phase: string) { phase == "load" || phase == "warm" }

  function PhaseIndex(phase: string): nat { if phase == "load" then 0 else 1 }

  /** While the coordinator has not failed. */
  predicate InStep(s: System) {
    match s.client
    case Fresh => Quiet(s) && IsAt(s, false, 0)
    case Asking(p) => IsPhase(p) && Exchanges(s, "READY", p, State(false, PhaseIndex(p)), State(true, PhaseIndex(p)))
    case Working(p) => IsPhase(p) && Quiet(s) && IsAt(s, true, PhaseIndex(p))
    case Reporting(p) =>
      && IsPhase(p)
      && Exchanges(s, "WORK_DONE", p, State(true, PhaseIndex(p)), if p == "load" then State(true, 0) else State(false, 2))
    case Loaded => Quiet(s) && IsAt(s, true, 0)
    case Stopping => Exchanges(s, "STOP", "load", State(true, 0), State(false, 1))
    case Between => Quiet(s) && IsAt(s, false, 1)
    case Finished => Quiet(s) && IsAt(s, false, 2)
    case Refused => false
    case Terminated => false
  }

  /** After a failure the replies still on the way are the ones awaited. */
  predicate Stranded(s: System) {
    match s.client
    case Asking(p) => IsPhase(p) && (s.replies == [] || s.replies == [Awaited("READY", p)])
    case Reporting(p) => IsPhase(p) && (s.replies == [] || (p == "load" && s.replies == [Awaited("WORK_DONE", p)]))
    case Stopping => s.replies == [] || s.replies == [Awaited("STOP", "load")]
    case Refused => false
    case Finished => false
    case Working(p) => IsPhase(p) && s.replies == []
    case Terminated => |s.replies| <= 1
    case _ => s.replies == []
  }

  predicate Inv(s: System) {
    if s.coordinator.Failed? then Stranded(s) && s.counters == {} else InStep(s)
  }

  // ----- every step -----

  lemma EventsAreWords()
    ensures Blankless("READY") && Blankless("WORK_DONE") && Blankless("STOP")
    ensures Blankless("load") && Blankless("warm")
    ensures IsAscii("READY") && IsAscii("WORK_DONE") && IsAscii("STOP") && IsAscii("load") && IsAscii("warm")
  {
  }

  lemma Renders(event: string, phase: string, pid: string)
    requires event != [] && phase != [] && Blankless(event) && Blankless(phase) && IsDigits(pid)
    requires IsAscii(event) && IsAscii(phase)
    ensures Parse(Render(event, phase, pid)) == Message(event, phase)
  {
    ParseOfRender(event, phase, pid, "");
    SplitOnce(Render(event, phase, pid), NEWLINE, "");
  }

  lemma ClientKeepsInv(s: System, pid: string, again: bool)
    requires Inv(s) && IsDigits(pid)
    ensures Inv(MoveClient(s, pid, again))
  {
    Literals();
    EventsAreWords();
    match s.client
    case Fresh => Renders("READY", "load", pid);
    case Between => Renders("READY", "warm", pid);
    case Working(p) => Renders("WORK_DONE", p, pid);
    case Loaded => Renders("STOP", "load", pid);
    case _ =>
  }

  lemma ActOne(counters: set<string>, a: Action)
    ensures Act(counters, []) == counters
    ensures Act(counters, [a]) == if a.Enable? then counters + {a.phase} else counters - {a.phase}
  {
    assert [a][1..] == [];
  }

  /** The request in flight is one the coordinator takes, and it moves as the exchange says. */
  lemma TakesRequest(was: State, text: string, event: string, phase: string, perfOk: bool)
    requires Parse(text) == Message(event, phase) && was.index < |PHASES| && phase == PHASES[was.index]
    ensures var turn := Take(was, Input(Line(text), perfOk));
            && (event == "READY" && !was.active ==>
                 turn == if perfOk then Goes(State(true, was.index), Awaited(event, phase), [Enable(phase)]) else Fails)
            && (event == "WORK_DONE" && was == State(true, 0) ==> turn == Goes(was, Awaited(event, phase), []))
            && (event == "WORK_DONE" && was == State(true, 1) ==>
                 turn == if perfOk then Goes(State(false, 2), Awaited(event, phase), [Disable(phase)]) else Fails)
            && (event == "STOP" && was == State(true, 0) ==>
                 turn == if perfOk then Goes(State(false, 1), Awaited(event, phase), [Disable(phase)]) else Fails)
  {
    Literals();
  }

  lemma CoordinatorKeepsInv(s: System, perfOk: bool)
    requires Inv(s)
    ensures Inv(Next(s, CoordinatorReads(perfOk)))
    ensures perfOk && Next(s, CoordinatorReads(perfOk)).coordinator.Failed? ==> s.coordinator.Failed?
  {
    Literals();
    if s.coordinator.At? && s.coordinator.state.index < |PHASES| && s.requests != [] {
      var was := s.coordinator.state;
      var phase := PHASES[was.index];
      var event := if s.client.Asking? then "READY" else if s.client.Reporting? then "WORK_DONE" else "STOP";
      TakesRequest(was, s.requests[0], event, phase, perfOk);
      ActOne(s.counters, Enable(phase));
      ActOne(s.counters, Disable(phase));
    }
  }

  lemma {:induction false} RunKeepsInv(steps: seq<Step>)
    ensures Inv(Run(steps))
    decreases |steps|
  {
    if steps != [] {
      var before, step := steps[..|steps| - 1], steps[|steps| - 1];
      RunKeepsInv(before);
      match step
      case ClientMoves(pid, again) => if IsDigits(pid) { ClientKeepsInv(Run(before), pid, again); }
      case CoordinatorReads(perfOk) => CoordinatorKeepsInv(Run(before), perfOk);
      case CoordinatorTimesOut =>
      case ChildTerminated =>
    }
  }

  // ----- the theorems -----

  lemma Extend(steps: seq<Step>, step: Step)
    ensures Run(steps + [step]) == Next(Run(steps), step)
  {
    assert (steps + [step])[..|steps|] == steps;
  }

  /** No read times out while a counter is enabled. */
  ghost predicate Patient(steps: seq<Step>) {
    forall i :: 0 <= i < |steps| && steps[i].CoordinatorTimesOut? && Waits(Run(steps[..i])) ==>
      !Run(steps[..i]).coordinator.state.active
  }

  /** A client from which, with the coordinator gone, no measured work can follow. */
  predicate Halted(s: System) {
    match s.client
    case Asking(_) => s.replies == []
    case Reporting(_) => s.replies == []
    case Working(_) => false
    case Loaded => false
    case _ => true
  }

  lemma PatientPrefix(steps: seq<Step>)
    requires steps != []
    ensures var n := |steps| - 1;
            Patient(steps) <==>
            && Patient(steps[..n])
            && (steps[n].CoordinatorTimesOut? && Waits(Run(steps[..n])) ==> !Run(steps[..n]).coordinator.state.active)
  {
    var n := |steps| - 1;
    assert forall i :: 0 <= i < n ==> steps[..n][..i] == steps[..i] && steps[..n][i] == steps[i];
  }

  /** A step after which the coordinator has failed leaves a halted client, unless a counter was enabled when the read
      timed out.
  */
  lemma FailingHalts(s: System, step: Step)
    requires Inv(s) && Next(s, step).coordinator.Failed? && (s.coordinator.Failed? ==> Halted(s))
    requires step.CoordinatorTimesOut? && Waits(s) ==> !s.coordinator.state.active
    ensures Halted(Next(s, step))
  {
    Literals();
  }

  lemma {:induction false} PatientRunsHalt(steps: seq<Step>)
    requires Patient(steps) && Run(steps).coordinator.Failed?
    ensures Halted(Run(steps))
    decreases |steps|
  {
    if steps != [] {
      var before := steps[..|steps| - 1];
      PatientPrefix(steps);
      RunKeepsInv(before);
      if Run(before).coordinator.Failed? { PatientRunsHalt(before); }
      FailingHalts(Run(before), steps[|steps| - 1]);
    }
  }

  lemma {:induction false} ImpatientRunsFail(steps: seq<Step>)
    requires !Patient(steps)
    ensures Run(steps).coordinator.Failed?
    decreases |steps|
  {
    if steps != [] {
      PatientPrefix(steps);
      if !Patient(steps[..|steps| - 1]) { ImpatientRunsFail(steps[..|steps| - 1]); }
    }
  }

  /** In every run measured work is counted by its own phase's counter, and no other, exactly when no read has timed out
      while a counter was enabled; otherwise nothing counts it.
  */
  lemma WorkIsCounted(steps: seq<Step>)
    requires Run(steps).client.Working?
    ensures Run(steps).counters == if Patient(steps) then {Run(steps).client.phase} else {}
  {
    RunKeepsInv(steps);
    if Patient(steps) {
      if Run(steps).coordinator.Failed? { PatientRunsHalt(steps); }
    } else {
      ImpatientRunsFail(steps);
    }
  }

  lemma RunAppend(steps: seq<Step>, step: Step, more: seq<Step>)
    ensures Run(steps + more + [step]) == Next(Run(steps + more), step)
    ensures steps + (more + [step]) == steps + more + [step]
  {
    assert (steps + more + [step])[..|steps + more|] == steps + more;
  }

  lemma {:induction false} HaltedForGood(steps: seq<Step>, more: seq<Step>)
    requires Run(steps).coordinator.Failed? && Halted(Run(steps))
    ensures Run(steps + more).coordinator.Failed? && Halted(Run(steps + more))
    decreases |more|
  {
    if more == [] {
      assert steps + more == steps;
    } else {
      var before, step := more[..|more| - 1], more[|more| - 1];
      HaltedForGood(steps, before);
      assert more == before + [step];
      RunAppend(steps, step, before);
      RunKeepsInv(steps + before);
      FailingHalts(Run(steps + before), step);
    }
  }

  /** From a state in which a counter is enabled and the coordinator waits, the client reaches measured work on its own,
      whether or not the coordinator is still there: at once, or in one move, or in two.
  */
  lemma ReachesWork(s: System, pid: string)
    requires Inv(s) && Waits(s) && s.coordinator.state.active && IsDigits(pid)
    ensures var gone := GiveUp(s);
            var one := MoveClient(gone, pid, true);
            gone.client.Working? || one.client.Working? || MoveClient(one, pid, true).client.Working?
  {
    Literals();
  }

  lemma WorkFollows(steps: seq<Step>, pid: string) returns (more: seq<Step>)
    requires Waits(Run(steps)) && Run(steps).coordinator.state.active && IsDigits(pid)
    ensures Run(steps + [CoordinatorTimesOut] + more).client.Working?
  {
    RunKeepsInv(steps);
    ReachesWork(Run(steps), pid);
    var failed, move := steps + [CoordinatorTimesOut], ClientMoves(pid, true);
    Extend(steps, CoordinatorTimesOut);
    Extend(failed, move);
    Extend(failed + [move], move);
    assert failed + [] == failed && failed + [move] + [move] == failed + [move, move];
    more := if Run(failed).client.Working? then [] else if Run(failed + [move]).client.Working? then [move] else [move, move];
  }

  /** A timeout is followed by uncounted work, in some continuation, exactly when a counter is enabled as it happens. */
  lemma TimeoutHarmsIffCounting(steps: seq<Step>, pid: string)
    requires Waits(Run(steps)) && IsDigits(pid)
    ensures Run(steps).coordinator.state.active <==>
            exists more :: Run(steps + [CoordinatorTimesOut] + more).client.Working?
  {
    var failed := steps + [CoordinatorTimesOut];
    if Run(steps).coordinator.state.active {
      var more := WorkFollows(steps, pid);
    } else {
      RunKeepsInv(steps);
      Extend(steps, CoordinatorTimesOut);
      FailingHalts(Run(steps), CoordinatorTimesOut);
      forall more
        ensures !Run(failed + more).client.Working?
      {
        HaltedForGood(failed, more);
      }
    }
  }

  /** No client is ever given a reply meant for another request, even after the coordinator has failed. */
  lemma RepliesMatch(steps: seq<Step>)
    ensures Run(steps).client != Refused && |Run(steps).replies| <= 1
  {
    RunKeepsInv(steps);
  }

  /** The clients finish exactly when the coordinator has completed both phases and its last reply is read. */
  lemma FinishedMeansComplete(steps: seq<Step>)
    requires Run(steps).client.Finished?
    ensures Run(steps).coordinator == At(State(false, |PHASES|)) && Run(steps).counters == {}
  {
    RunKeepsInv(steps);
  }

  /** The coordinator times out, or is told by a request that perf concerns that perf disobeys. */
  predicate Breaks(s: System, step: Step) {
    || (step.CoordinatorTimesOut? && Waits(s))
    || (&& step == CoordinatorReads(false) && s.coordinator.At? && s.coordinator.state.index < |PHASES|
        && s.requests != [] && s.client != Reporting("load"))
  }

  lemma FailsOnlyByBreaking(s: System, step: Step)
    requires Inv(s) && s.coordinator.At?
    ensures Next(s, step).coordinator.Failed? <==> Breaks(s, step)
  {
    Literals();
    if step.CoordinatorReads? && s.coordinator.state.index < |PHASES| && s.requests != [] {
      var was := s.coordinator.state;
      var event := if s.client.Asking? then "READY" else if s.client.Reporting? then "WORK_DONE" else "STOP";
      TakesRequest(was, s.requests[0], event, PHASES[was.index], step.perfOk);
    }
  }

  ghost predicate BreaksAt(steps: seq<Step>, i: nat)
    requires i < |steps|
  {
    Breaks(Run(steps[..i]), steps[i])
  }

  ghost predicate Broken(steps: seq<Step>) {
    exists i: nat :: i < |steps| && BreaksAt(steps, i)
  }

  lemma BreaksAtPrefix(steps: seq<Step>, n: nat, i: nat)
    requires i < n <= |steps|
    ensures BreaksAt(steps[..n], i) <==> BreaksAt(steps, i)
  {
    assert steps[..n][..i] == steps[..i];
  }

  lemma BrokenPrefix(steps: seq<Step>)
    requires steps != []
    ensures Broken(steps) <==> Broken(steps[..|steps| - 1]) || BreaksAt(steps, |steps| - 1)
  {
    var n := |steps| - 1;
    forall i: nat | i < n
      ensures BreaksAt(steps[..n], i) <==> BreaksAt(steps, i)
    {
      BreaksAtPrefix(steps, n, i);
    }
  }

  /** The coordinator has failed exactly when a read has timed out or perf has disobeyed; an acknowledged load pass asks
      nothing of perf.
  */
  lemma {:induction false} FailureHasACause(steps: seq<Step>)
    ensures Run(steps).coordinator.Failed? <==> Broken(steps)
    decreases |steps|
  {
    if steps != [] {
      var n := |steps| - 1;
      FailureHasACause(steps[..n]);
      RunKeepsInv(steps[..n]);
      BrokenPrefix(steps);
      if Run(steps[..n]).coordinator.At? { FailsOnlyByBreaking(Run(steps[..n]), steps[n]); }
    }
  }

  /** Until then, somebody can always move. */
  lemma NeverStuck(steps: seq<Step>, pid: string)
    requires IsDigits(pid) && Run(steps).coordinator.At? && !Run(steps).client.Finished?
    ensures Next(Run(steps), ClientMoves(pid, false)) != Run(steps)
            || Next(Run(steps), CoordinatorReads(true)) != Run(steps)
  {
    RunKeepsInv(steps);
    Literals();
    var s := Run(steps);
    if s.requests != [] {
      assert |Next(s, CoordinatorReads(true)).requests| == 0;
    } else {
      assert Next(s, ClientMoves(pid, false)).client != s.client;
    }
  }

  /** A pass longer than the read timeout: the coordinator gives up, and until the benchmark's process is terminated the
      work runs on with no counter enabled.
  */
  lemma WorkMayOutlastTheCoordinator(pid: string) returns (steps: seq<Step>)
    requires IsDigits(pid)
    ensures Run(steps).client == Working("load") && Run(steps).coordinator.Failed? && Run(steps).counters == {}
  {
    Literals();
    EventsAreWords();
    Renders("READY", "load", pid);
    var move, take := ClientMoves(pid, false), CoordinatorReads(true);
    Extend([], move);
    Extend([] + [move], take);
    TakesRequest(State(false, 0), Render("READY", "load", pid), "READY", "load", true);
    Extend([] + [move] + [take], move);
    Extend([] + [move] + [take] + [move], CoordinatorTimesOut);
    steps := [] + [move] + [take] + [move] + [CoordinatorTimesOut];
  }
}
