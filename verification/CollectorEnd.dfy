/** When the detail collector is over before it is stopped: a request stays outstanding that nobody will ever release, so
    that every later submission is skipped.
*/
module CollectorEnd {
  import opened HelperReport
  import opened DetailCollector

  // ----- what ends it -----

  /** A request is outstanding, and neither the sampler, nor the queue, nor the worker, nor an abandoned helper answers for
      it.
  */
  predicate Lost(s: State) { s.outstanding != {} && Holders(s) == 0 }

  /** Output that raises, and reports that call themselves abandoned. */
  predicate Ends(r: Request, output: Output) {
    Raises(output) || (output.Printed? && Updates(output.json) && Judge(r, Updated(Asked(r), output.json)) == Failure(true))
  }

  /** The worker takes such output. */
  predicate Loses(s: State, step: Step) {
    || (step.Report? && s.worker.Running? && s.worker.proc !in s.alive && Ends(s.worker.request, step.output))
    || (step == KillWorks(false) && s.worker.Killing? && s.worker.proc !in s.alive)
  }

  predicate LosesAs(s: State, step: Step, reading: Reading) {
    || (step.Report? && s.worker.Running? && s.worker.proc !in s.alive
        && (reading.Raised? || reading == Judged(Failure(true))))
    || (step == KillWorks(false) && s.worker.Killing? && s.worker.proc !in s.alive)
  }

  lemma EndsIff(r: Request, output: Output)
    ensures Ends(r, output) <==> ReadingOf(r, output).Raised? || ReadingOf(r, output) == Judged(Failure(true))
  {
  }

  lemma SamplerLoses(s: State, step: Step)
    requires Inv(s)
    ensures Lost(SamplerNext(s, step)) <==> Lost(s)
  {
  }

  lemma ReportLoses(s: State, reading: Reading)
    requires OneAtATime(s) && s.worker.Running?
    ensures Lost(Classify(s, s.worker.request, reading)) <==> reading.Raised? || reading == Judged(Failure(true))
  {
  }

  lemma AbandonLoses(s: State)
    requires OneAtATime(s)
    ensures Lost(WorkerNext(s, Abandon, Raised)) <==> Lost(s)
  {
    if s.worker.Killing? { assert s.worker.request in WorkerNext(s, Abandon, Raised).abandoned; }
  }

  lemma FinishLoses(s: State)
    requires OneAtATime(s)
    ensures Lost(WorkerNext(s, Finish, Raised)) <==> Lost(s)
  {
    if s.worker.Finishing? && s.worker.discards { assert WorkerNext(s, Finish, Raised).outstanding == {}; }
  }

  lemma OtherLoses(s: State, step: Step, reading: Reading)
    requires OneAtATime(s) && !OfSampler(step) && !OfRest(step)
    requires !step.Report? && !step.Abandon? && !step.Finish? && !step.KillWorks?
    ensures Lost(WorkerNext(s, step, reading)) <==> Lost(s)
  {
  }

  lemma WorkerLoses(s: State, step: Step, reading: Reading)
    requires OneAtATime(s) && !OfSampler(step) && !OfRest(step)
    ensures Lost(WorkerNext(s, step, reading)) <==> Lost(s) || LosesAs(s, step, reading)
  {
    if step.Report? {
      if s.worker.Running? { ReportLoses(s, reading); }
    } else if step.Abandon? {
      AbandonLoses(s);
    } else if step.Finish? {
      FinishLoses(s);
    } else if !step.KillWorks? {
      OtherLoses(s, step, reading);
    }
  }

  lemma RestLoses(s: State, step: Step)
    requires Inv(s) && !ReleasesLate(s, step)
    ensures Lost(RestNext(s, step)) <==> Lost(s)
  {
    if step.Release? && step.item in PassOf(s, step.thread) && step.item.proc !in s.alive {
      assert ItemFits(s, step.item);
      ReleaseKeepsOne(s, step.thread, step.item);
      if step.item.request in s.outstanding {
        assert s.outstanding == {step.item.request};
        assert RestNext(s, step).outstanding == {};
      } else {
        assert RestNext(s, step).outstanding == s.outstanding;
        assert RestNext(s, step).abandoned == s.abandoned;
      }
    }
  }

  lemma StepLoses(s: State, step: Step)
    requires Inv(s) && !ReleasesLate(s, step)
    ensures Lost(Next(s, step)) <==> Lost(s) || Loses(s, step)
  {
    if OfSampler(step) {
      SamplerLoses(s, step);
    } else if OfRest(step) {
      RestLoses(s, step);
    } else {
      WorkerLoses(s, step, ReadingIn(s, step));
      if step.Report? && s.worker.Running? { EndsIff(s.worker.request, step.output); }
    }
  }

  ghost predicate LosesAt(steps: seq<Step>, i: nat)
    requires i < |steps|
  {
    Loses(Run(steps[..i]), steps[i])
  }

  /** The worker has taken output that ends collection. */
  ghost predicate HasLost(steps: seq<Step>) { exists i: nat :: i < |steps| && LosesAt(steps, i) }

  lemma HasLostPrefix(steps: seq<Step>)
    requires steps != []
    ensures HasLost(steps) <==> HasLost(steps[..|steps| - 1]) || LosesAt(steps, |steps| - 1)
  {
    var n := |steps| - 1;
    forall i: nat | i < n
      ensures LosesAt(steps[..n], i) <==> LosesAt(steps, i)
    {
      assert steps[..n][..i] == steps[..i];
    }
  }

  /** In every run without a late release, a request is lost exactly when the worker has taken output that raises, or a
      report with the right identity that calls itself abandoned.
  */
  lemma {:induction false} LostIff(steps: seq<Step>)
    requires Careful(steps)
    ensures Lost(Run(steps)) <==> HasLost(steps)
    decreases |steps|
  {
    if steps != [] {
      var n := |steps| - 1;
      LostIff(steps[..n]);
      RunKeepsInv(steps[..n]);
      StepLoses(Run(steps[..n]), steps[n]);
      HasLostPrefix(steps);
    }
  }

  // ----- for good -----

  /** No pass in progress has listed an outstanding request. */
  ghost predicate Unlisted(s: State) { forall t, item :: item in PassOf(s, t) ==> item.request !in s.outstanding }

  ghost predicate Ended(s: State) { Lost(s) && Unlisted(s) }

  /** Everything but the count of skipped submissions. */
  predicate SameCounters(c: Counters, c': Counters) { c' == c.(skippedOutstanding := c'.skippedOutstanding) }

  lemma SamplerStaysEnded(s: State, step: Step)
    requires Ended(s)
    ensures Ended(SamplerNext(s, step)) && SamplerNext(s, step).outstanding == s.outstanding
    ensures SameCounters(s.counters, SamplerNext(s, step).counters)
  {
    assert forall t, item :: item in PassOf(SamplerNext(s, step), t) ==> item in PassOf(s, t);
  }

  lemma WorkerStaysEnded(s: State, step: Step, reading: Reading)
    requires Ended(s)
    ensures Ended(WorkerNext(s, step, reading)) && WorkerNext(s, step, reading).outstanding == s.outstanding
    ensures SameCounters(s.counters, WorkerNext(s, step, reading).counters)
  {
    assert forall t, item :: item in PassOf(WorkerNext(s, step, reading), t) ==> item in PassOf(s, t);
  }

  lemma RestStaysEnded(s: State, step: Step)
    requires Ended(s)
    ensures Ended(RestNext(s, step)) && RestNext(s, step).outstanding == s.outstanding
    ensures SameCounters(s.counters, RestNext(s, step).counters)
  {
    assert forall t, item :: item in PassOf(RestNext(s, step), t) ==> item in PassOf(s, t);
    assert step.Release? && step.item in PassOf(s, step.thread) ==> s.outstanding - {step.item.request} == s.outstanding;
    assert step.Release? ==> s.abandoned - {step.item.request} == map[];
  }

  lemma StepStaysEnded(s: State, step: Step)
    requires Ended(s)
    ensures Ended(Next(s, step)) && Next(s, step).outstanding == s.outstanding
    ensures SameCounters(s.counters, Next(s, step).counters)
  {
    if OfSampler(step) {
      SamplerStaysEnded(s, step);
    } else if OfRest(step) {
      RestStaysEnded(s, step);
    } else {
      WorkerStaysEnded(s, step, ReadingIn(s, step));
    }
  }

  ghost function Play(s: State, more: seq<Step>): State
    decreases |more|
  {
    if more == [] then s else Play(Next(s, more[0]), more[1..])
  }

  lemma {:induction false} PlayIsRun(steps: seq<Step>, more: seq<Step>)
    ensures Run(steps + more) == Play(Run(steps), more)
    decreases |more|
  {
    if more == [] {
      assert steps + more == steps;
    } else {
      Extend(steps, more[0]);
      PlayIsRun(steps + [more[0]], more[1..]);
      assert steps + more == steps + [more[0]] + more[1..];
    }
  }

  lemma {:induction false} PlayStaysEnded(s: State, more: seq<Step>)
    requires Ended(s)
    ensures Ended(Play(s, more)) && Play(s, more).outstanding == s.outstanding
    ensures SameCounters(s.counters, Play(s, more).counters)
    decreases |more|
  {
    if more != [] {
      StepStaysEnded(s, more[0]);
      PlayStaysEnded(Next(s, more[0]), more[1..]);
    }
  }

  /** Then nothing is attempted or classified any more, whatever happens. */
  lemma EndIsFinal(steps: seq<Step>, more: seq<Step>)
    requires Ended(Run(steps))
    ensures Ended(Run(steps + more)) && Run(steps + more).outstanding == Run(steps).outstanding
    ensures SameCounters(Run(steps).counters, Run(steps + more).counters)
  {
    PlayIsRun(steps, more);
    PlayStaysEnded(Run(steps), more);
  }

  // ----- and only then -----

  /** Some continuation has one more request accepted. */
  ghost predicate Accepts(s: State) { exists more :: Play(s, more).counters.attempts > s.counters.attempts }

  lemma AttemptsGrow(s: State, step: Step)
    ensures Next(s, step).counters.attempts >= s.counters.attempts
  {
    if OfSampler(step) {
      assert SamplerNext(s, step).counters.attempts >= s.counters.attempts;
    } else if OfRest(step) {
      assert RestNext(s, step).counters == s.counters;
    } else {
      assert WorkerNext(s, step, ReadingIn(s, step)).counters.attempts == s.counters.attempts;
    }
  }

  lemma AcceptsBy(s: State, step: Step)
    requires Accepts(Next(s, step))
    ensures Accepts(s)
  {
    var more :| Play(Next(s, step), more).counters.attempts > Next(s, step).counters.attempts;
    AttemptsGrow(s, step);
    assert ([step] + more)[1..] == more;
    assert Play(s, [step] + more) == Play(Next(s, step), more);
  }

  lemma Grown(s: State, step: Step)
    requires Next(s, step).counters.attempts > s.counters.attempts
    ensures Accepts(s)
  {
    assert [step][1..] == [];
    assert Play(Next(s, step), []) == Next(s, step);
    assert Play(s, [step]) == Next(s, step);
  }

  const SOME_REQUEST := Request(1, 1)

  /** With nothing outstanding or abandoned, the next submission is accepted. */
  lemma FreeAccepts(s: State)
    requires s.outstanding == {} && s.abandoned == map[] && !s.submitter.Putting?
    requires s.submitter.Calling? ==> PassOf(s, SamplerThread) == {}
    ensures Accepts(s)
  {
    if s.submitter.Ready? {
      PutsOne(s, SOME_REQUEST);
      Grown(Next(s, Call(SOME_REQUEST)), Submit);
      AcceptsBy(s, Call(SOME_REQUEST));
    } else {
      Grown(s, Submit);
    }
  }

  lemma KeepsInv(s: State, step: Step)
    requires Inv(s) && !ReleasesLate(s, step)
    ensures Inv(Next(s, step))
  {
    StepKeepsInv(s, step, ReadingIn(s, step));
  }

  /** The sampler is not in the middle of a pass. */
  predicate SamplerFree(s: State) { PassOf(s, SamplerThread) == {} }

  /** A pass that has listed an outstanding request can release it. */
  lemma ListedAccepts(s: State, t: Thread, item: Item)
    requires Inv(s) && item in PassOf(s, t) && item.request in s.outstanding && !s.submitter.Putting?
    requires t == SamplerThread || SamplerFree(s)
    ensures Accepts(s)
  {
    var s1 := Next(s, Exit(item.proc));
    assert PassOf(s1, t) == PassOf(s, t) == {item} && s.outstanding == {item.request};
    ReleasesOne(s1, t, item);
    FreeAccepts(Next(s1, Release(t, item)));
    AcceptsBy(s1, Release(t, item));
    AcceptsBy(s, Exit(item.proc));
  }

  lemma FinishingAccepts(s: State)
    requires Inv(s) && s.worker.Finishing? && s.worker.discards && SamplerFree(s)
    ensures Accepts(s)
  {
    var s1 := Next(s, Finish);
    assert s1.outstanding == {};
    FreeAccepts(s1);
    AcceptsBy(s, Finish);
  }

  lemma KillingAccepts(s: State)
    requires Inv(s) && s.worker.Killing? && SamplerFree(s)
    ensures Accepts(s)
  {
    var s1 := Next(s, Exit(s.worker.proc));
    KeepsInv(s, Exit(s.worker.proc));
    KeepsInv(s1, KillWorks(true));
    FinishingAccepts(Next(s1, KillWorks(true)));
    AcceptsBy(s1, KillWorks(true));
    AcceptsBy(s, Exit(s.worker.proc));
  }

  lemma RunningAccepts(s: State)
    requires Inv(s) && s.worker.Running? && SamplerFree(s)
    ensures Accepts(s)
  {
    var s1 := Next(s, Exit(s.worker.proc));
    KeepsInv(s, Exit(s.worker.proc));
    KeepsInv(s1, Report(ExitCode));
    FinishingAccepts(Next(s1, Report(ExitCode)));
    AcceptsBy(s1, Report(ExitCode));
    AcceptsBy(s, Exit(s.worker.proc));
  }

  lemma StartingAccepts(s: State)
    requires Inv(s) && s.worker.Starting? && SamplerFree(s)
    ensures Accepts(s)
  {
    KeepsInv(s, SpawnFails);
    FinishingAccepts(Next(s, SpawnFails));
    AcceptsBy(s, SpawnFails);
  }

  lemma TakingAccepts(s: State)
    requires Inv(s) && s.requests != [] && s.worker == Idle && PassOf(s, WorkerThread) == {} && SamplerFree(s)
    ensures Accepts(s)
  {
    KeepsInv(s, Take);
    StartingAccepts(Next(s, Take));
    AcceptsBy(s, Take);
  }

  lemma ReleaseOfNothing(s: State, t: Thread, item: Item)
    requires PassOf(s, t) == {item} && item.proc !in s.alive && item.request !in s.outstanding
    requires item.request !in s.abandoned
    ensures Next(s, Release(t, item)) == s.(passes := s.passes[t := {}]) && !ReleasesLate(s, Release(t, item))
  {
    assert {item} - {item} == {} && s.abandoned - {item.request} == s.abandoned;
    assert s.outstanding - {item.request} == s.outstanding;
  }

  /** A listed request that is not outstanding is passed over without effect. */
  lemma PassesOver(s: State, t: Thread, item: Item)
    requires Inv(s) && item in PassOf(s, t) && item.request !in s.outstanding
    ensures var s2 := s.(alive := s.alive - {item.proc}, passes := s.passes[t := {}]);
            Inv(s2) && (Accepts(s2) ==> Accepts(s))
  {
    var s1 := Next(s, Exit(item.proc));
    KeepsInv(s, Exit(item.proc));
    assert PassOf(s1, t) == PassOf(s, t) == {item};
    ReleaseOfNothing(s1, t, item);
    KeepsInv(s1, Release(t, item));
    if Accepts(Next(s1, Release(t, item))) {
      AcceptsBy(s1, Release(t, item));
      AcceptsBy(s, Exit(item.proc));
    }
  }

  lemma IdleAccepts(s: State)
    requires Inv(s) && s.requests != [] && s.worker == Idle && SamplerFree(s)
    ensures Accepts(s)
  {
    if item :| item in PassOf(s, WorkerThread) {
      if item.request in s.outstanding {
        ListedAccepts(s, WorkerThread, item);
      } else {
        PassesOver(s, WorkerThread, item);
        TakingAccepts(s.(alive := s.alive - {item.proc}, passes := s.passes[WorkerThread := {}]));
      }
    } else {
      TakingAccepts(s);
    }
  }

  lemma ReapingAccepts(s: State)
    requires Inv(s) && s.requests != [] && s.worker.Reaping? && SamplerFree(s)
    ensures Accepts(s)
  {
    KeepsInv(s, List);
    IdleAccepts(Next(s, List));
    AcceptsBy(s, List);
  }

  lemma QueuedAccepts(s: State)
    requires Inv(s) && s.requests != [] && !s.stopping && SamplerFree(s)
    ensures Accepts(s)
  {
    if s.worker == Idle {
      IdleAccepts(s);
    } else if s.worker.Reaping? {
      ReapingAccepts(s);
    } else {
      KeepsInv(s, Finish);
      ReapingAccepts(Next(s, Finish));
      AcceptsBy(s, Finish);
    }
  }

  lemma PuttingAccepts(s: State)
    requires Inv(s) && s.submitter.Putting? && !s.stopping
    ensures Accepts(s)
  {
    KeepsInv(s, Put);
    QueuedAccepts(Next(s, Put));
    AcceptsBy(s, Put);
  }

  lemma ReadyAbandonedAccepts(s: State)
    requires Inv(s) && s.abandoned != map[] && s.submitter.Ready?
    ensures Accepts(s)
  {
    var r :| r in s.abandoned;
    assert s.abandoned == map[r := s.abandoned[r]];
    CallsOne(s, r, s.abandoned[r]);
    KeepsInv(s, Call(r));
    var item := Item(r, s.abandoned[r], s.counters.attempts);
    ListedAccepts(Next(s, Call(r)), SamplerThread, item);
    AcceptsBy(s, Call(r));
  }

  lemma AbandonedAccepts(s: State)
    requires Inv(s) && s.abandoned != map[] && SamplerFree(s)
    ensures Accepts(s)
  {
    if s.submitter.Calling? {
      KeepsInv(s, Submit);
      assert Next(s, Submit).submitter.Ready? && Next(s, Submit).abandoned == s.abandoned by {
        var r :| r in s.abandoned;
        assert r in s.outstanding;
      }
      ReadyAbandonedAccepts(Next(s, Submit));
      AcceptsBy(s, Submit);
    } else {
      ReadyAbandonedAccepts(s);
    }
  }

  lemma WorkingAccepts(s: State)
    requires Inv(s) && WorkerHolds(s.worker) && SamplerFree(s)
    ensures Accepts(s)
  {
    match s.worker
    case Starting(_) => StartingAccepts(s);
    case Running(_, _) => RunningAccepts(s);
    case Killing(_, _) => KillingAccepts(s);
    case Finishing(_, _) => FinishingAccepts(s);
  }

  lemma FreeSamplerAccepts(s: State)
    requires Inv(s) && !s.stopping && SamplerFree(s) && !Ended(s)
    ensures Accepts(s)
  {
    if s.outstanding == {} {
      assert s.abandoned == map[];
      FreeAccepts(s);
    } else if s.submitter.Putting? {
      PuttingAccepts(s);
    } else if s.requests != [] {
      QueuedAccepts(s);
    } else if WorkerHolds(s.worker) {
      WorkingAccepts(s);
    } else if s.abandoned != map[] {
      AbandonedAccepts(s);
    } else {
      var t, item :| item in PassOf(s, t) && item.request in s.outstanding;
      ListedAccepts(s, t, item);
    }
  }

  lemma NotEndedAccepts(s: State)
    requires Inv(s) && !s.stopping && !Ended(s)
    ensures Accepts(s)
  {
    if item :| item in PassOf(s, SamplerThread) {
      if item.request in s.outstanding {
        ListedAccepts(s, SamplerThread, item);
      } else {
        PassesOver(s, SamplerThread, item);
        var s2 := s.(alive := s.alive - {item.proc}, passes := s.passes[SamplerThread := {}]);
        if Ended(s2) { StillEnded(s, s2, SamplerThread, item); }
        FreeSamplerAccepts(s2);
      }
    } else {
      FreeSamplerAccepts(s);
    }
  }

  lemma StillEnded(s: State, s2: State, t: Thread, item: Item)
    requires Inv(s) && item in PassOf(s, t) && item.request !in s.outstanding
    requires s2 == s.(alive := s2.alive, passes := s.passes[t := {}]) && Ended(s2)
    ensures Ended(s)
  {
    forall u, other | other in PassOf(s, u)
      ensures other.request !in s.outstanding
    {
      if u == t { assert other == item; } else { assert other in PassOf(s2, u); }
    }
  }

  /** No submission is ever accepted again, whatever happens. */
  ghost predicate IsOver(steps: seq<Step>) {
    forall more :: Run(steps + more).counters.attempts == Run(steps).counters.attempts
  }

  lemma EndedIsOver(steps: seq<Step>)
    requires Ended(Run(steps))
    ensures IsOver(steps)
  {
    forall more
      ensures Run(steps + more).counters.attempts == Run(steps).counters.attempts
    {
      EndIsFinal(steps, more);
    }
  }

  lemma AcceptsIsNotOver(steps: seq<Step>)
    requires Accepts(Run(steps))
    ensures !IsOver(steps)
  {
    var more :| Play(Run(steps), more).counters.attempts > Run(steps).counters.attempts;
    PlayIsRun(steps, more);
  }

  lemma EndedIff(steps: seq<Step>)
    requires Careful(steps)
    ensures Ended(Run(steps)) <==> HasLost(steps) && Unlisted(Run(steps))
  {
    LostIff(steps);
  }

  lemma EndedOrAccepts(s: State)
    requires Inv(s) && !s.stopping
    ensures Ended(s) || Accepts(s)
  {
    if !Ended(s) { NotEndedAccepts(s); }
  }

  lemma CarefulEndedOrAccepts(steps: seq<Step>)
    requires Careful(steps) && !Run(steps).stopping
    ensures Ended(Run(steps)) || Accepts(Run(steps))
  {
    RunKeepsInv(steps);
    EndedOrAccepts(Run(steps));
  }

  lemma OverIfEnded(steps: seq<Step>)
    requires Ended(Run(steps)) || Accepts(Run(steps))
    ensures IsOver(steps) <==> Ended(Run(steps))
  {
    if Ended(Run(steps)) { EndedIsOver(steps); } else { AcceptsIsNotOver(steps); }
  }

  /** Collection is over, in a run not stopped and without a late release, exactly when the worker has taken output that
      raises or a report that calls itself abandoned, and no pass in progress has listed the request left outstanding.
  */
  lemma OverIff(steps: seq<Step>)
    requires Careful(steps) && !Run(steps).stopping
    ensures IsOver(steps) <==> HasLost(steps) && Unlisted(Run(steps))
  {
    EndedIff(steps);
    CarefulEndedOrAccepts(steps);
    OverIfEnded(steps);
  }

  // ----- runs that end it, and runs that do not -----

  lemma CarefulExtend(steps: seq<Step>, step: Step)
    requires Careful(steps) && !step.Release?
    ensures Careful(steps + [step])
  {
    assert (steps + [step])[..|steps|] == steps;
  }

  /** One request is submitted. */
  lemma FirstPut(r: Request) returns (steps: seq<Step>)
    ensures Careful(steps)
    ensures Run(steps) ==
            State(Ready, [r], Idle, {r}, map[], map[SamplerThread := {}], {}, 0, false,
                  Counters(1, 0, 0, 0, 0, 0, 0, 0), map[r := 1], false)
  {
    CarefulExtend([], Call(r));
    CarefulExtend([] + [Call(r)], Submit);
    CarefulExtend([] + [Call(r)] + [Submit], Put);
    steps := PutsRun([], r);
    assert Run(steps).passes == map[SamplerThread := {}];
  }

  /** Its helper runs. */
  lemma FirstHelperRuns(r: Request) returns (steps: seq<Step>)
    ensures Careful(steps)
    ensures Run(steps) ==
            State(Ready, [], Running(r, 0), {r}, map[], map[SamplerThread := {}], {0}, 1, false,
                  Counters(1, 0, 0, 0, 0, 0, 0, 0), map[r := 1], false)
  {
    steps := FirstPut(r);
    CarefulExtend(steps, Take);
    CarefulExtend(steps + [Take], Spawn);
    steps := Extend2(steps, Take, Spawn);
    assert Run(steps).alive == {0};
  }

  /** The helper exits. */
  lemma FirstHelperExits(r: Request) returns (steps: seq<Step>)
    ensures Careful(steps)
    ensures Run(steps) ==
            State(Ready, [], Running(r, 0), {r}, map[], map[SamplerThread := {}], {}, 1, false,
                  Counters(1, 0, 0, 0, 0, 0, 0, 0), map[r := 1], false)
  {
    steps := FirstHelperRuns(r);
    CarefulExtend(steps, Exit(0));
    Extend(steps, Exit(0));
    steps := steps + [Exit(0)];
    assert Run(steps).alive == {};
  }

  /** The state after its output has been read. */
  function Reported(r: Request, reading: Reading): State {
    State(Ready, [], EndOf(r, reading), {r}, map[], map[SamplerThread := {}], {}, 1, false,
          Counted(Counters(1, 0, 0, 0, 0, 0, 0, 0), false, reading), map[r := 1], false)
  }

  /** Its output is read, and the worker goes on as far as it can. */
  lemma FirstReport(r: Request, output: Output) returns (steps: seq<Step>)
    ensures Careful(steps) && Run(steps) == Next(Next(Reported(r, ReadingOf(r, output)), Finish), List)
  {
    steps := FirstHelperExits(r);
    CarefulExtend(steps, Report(output));
    Extend(steps, Report(output));
    steps := steps + [Report(output)];
    CarefulExtend(steps, Finish);
    CarefulExtend(steps + [Finish], List);
    steps := Extend2(steps, Finish, List);
  }

  /** Where the worker ends up. */
  lemma AfterReport(r: Request, reading: Reading)
    ensures var s := Next(Next(Reported(r, reading), Finish), List);
            && s.abandoned == map[] && s.submitter.Ready? && s.requests == []
            && s.counters == Reported(r, reading).counters
            && (if reading.Raised? then s.worker == Crashed(false) && Ended(s)
                else if reading == Judged(Failure(true)) then s.worker == Idle && Ended(s)
                else s.outstanding == {})
  {
    var s0 := Reported(r, reading);
    assert Listing(Next(s0, Finish)) == {};
  }

  /** `null` ends collection by an exception, and a report that calls itself abandoned ends it without one. */
  lemma TwoEnds(r: Request) returns (withNull: seq<Step>, withAbandoned: seq<Step>)
    ensures Run(withNull).worker == Crashed(false) && IsOver(withNull)
    ensures Run(withAbandoned).worker == Idle && Run(withAbandoned).counters.errors == 1 && IsOver(withAbandoned)
  {
    AbandonedReportIsFailure(r);
    AfterReport(r, Raised);
    AfterReport(r, Judged(Failure(true)));
    withNull := FirstReport(r, Printed(Null));
    EndedIsOver(withNull);
    withAbandoned := FirstReport(r, Printed(AbandonedReport(r)));
    EndedIsOver(withAbandoned);
  }

  /** After output that does not end it, the next submission is accepted. */
  lemma GoesOn(r: Request, output: Output) returns (steps: seq<Step>)
    requires !Ends(r, output)
    ensures Careful(steps) && !IsOver(steps)
    ensures Run(steps).counters == Counted(Counters(1, 0, 0, 0, 0, 0, 0, 0), false, ReadingOf(r, output))
  {
    EndsIff(r, output);
    AfterReport(r, ReadingOf(r, output));
    steps := FirstReport(r, output);
    FreeAccepts(Run(steps));
    AcceptsIsNotOver(steps);
  }

  /** An empty list does not end it, and counts as an identity mismatch; a list of pairs can be a success. */
  lemma ListsGoOn(r: Request) returns (withList: seq<Step>, withPairs: seq<Step>)
    ensures !IsOver(withList) && Run(withList).counters.identityMismatches == 1
    ensures !IsOver(withPairs) && Run(withPairs).counters.successes == 1
  {
    EmptyListIsMismatch(r);
    PairsReportIsSuccess(r);
    withList := GoesOn(r, Printed(Array([])));
    withPairs := GoesOn(r, Printed(PairsReport(r)));
  }

  // ----- the exception -----

  /** The worker reads the output of a helper that has exited, and the output raises. */
  predicate Kills(s: State, step: Step) {
    || (step.Report? && Raises(step.output) && s.worker.Running? && s.worker.proc !in s.alive)
    || (step == KillWorks(false) && s.worker.Killing? && s.worker.proc !in s.alive)
  }

  lemma WorkerCrashes(s: State, step: Step, reading: Reading)
    requires !OfSampler(step) && !OfRest(step)
    ensures WorkerNext(s, step, reading).worker.Crashed? <==>
            || s.worker.Crashed?
            || (step.Report? && s.worker.Running? && s.worker.proc !in s.alive && reading.Raised?)
            || (step == KillWorks(false) && s.worker.Killing? && s.worker.proc !in s.alive)
  {
  }

  lemma CrashesByKill(s: State, step: Step)
    ensures Next(s, step).worker.Crashed? <==> s.worker.Crashed? || Kills(s, step)
  {
    if !OfSampler(step) && !OfRest(step) {
      WorkerCrashes(s, step, ReadingIn(s, step));
      if step.Report? && s.worker.Running? { RaisedIff(s.worker.request, step.output); }
    } else if OfSampler(step) {
      assert SamplerNext(s, step).worker == s.worker;
    } else if OfRest(step) {
      assert RestNext(s, step).worker == s.worker;
    }
  }

  ghost predicate KillsAt(steps: seq<Step>, i: nat)
    requires i < |steps|
  {
    Kills(Run(steps[..i]), steps[i])
  }

  ghost predicate Killed(steps: seq<Step>) { exists i: nat :: i < |steps| && KillsAt(steps, i) }

  lemma KilledPrefix(steps: seq<Step>)
    requires steps != []
    ensures Killed(steps) <==> Killed(steps[..|steps| - 1]) || KillsAt(steps, |steps| - 1)
  {
    var n := |steps| - 1;
    forall i: nat | i < n
      ensures KillsAt(steps[..n], i) <==> KillsAt(steps, i)
    {
      assert steps[..n][..i] == steps[..i];
    }
  }

  /** The worker has crashed exactly when, in the run so far, it has taken output that raises: text it cannot decode, or
      JSON that is no object, no list of pairs and no empty string.
  */
  lemma {:induction false} CrashedIff(steps: seq<Step>)
    ensures Run(steps).worker.Crashed? <==> Killed(steps)
    decreases |steps|
  {
    if steps != [] {
      var n := |steps| - 1;
      CrashedIff(steps[..n]);
      CrashesByKill(Run(steps[..n]), steps[n]);
      KilledPrefix(steps);
    }
  }
}
