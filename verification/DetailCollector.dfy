/** The sampler's detail collector: a sampler thread submits requests, a worker thread runs one helper process for each,
    and a helper that will not die is abandoned until it does.

    Submission, the worker's stages, process exits, reaping and stopping are separate steps in any order.  A reaping pass
    lists the abandoned helpers under the lock and then takes the lock again for each that has died, to release its
    request; the sampler, the worker and other threads each make passes of their own.  The helper's output is arbitrary.
*/
module DetailCollector {
  import opened HelperReport

  type Proc = nat

  // ----- the machine -----

  /** Where the sampler thread is in `submit`. */
  datatype Submitter = Ready | Calling(request: Request) | Putting(request: Request)

  /** Where the worker thread is in `_run` and `_collect`. */
  datatype Worker =
    | Idle
    | Starting(request: Request)
    | Running(request: Request, proc: Proc)
    | Killing(request: Request, proc: Proc)
    | Finishing(request: Request, discards: bool)
    | Reaping                 // about to list the abandoned helpers
    | Stopped
    | Crashed(counted: bool)  // by an exception; `counted`: a counter has already classified the request

  datatype Thread = SamplerThread | WorkerThread | OtherThread(n: nat)

  /** An abandoned helper as a pass has listed it; `listed` is history only: the requests accepted by then. */
  datatype Item = Item(request: Request, proc: Proc, listed: nat)

  datatype Counters = Counters(
    attempts: nat, successes: nat, timeouts: nat, errors: nat, identityMismatches: nat, cancelled: nat,
    skippedOutstanding: nat, abandonedHelpers: nat)

  /** `passes` holds what each thread has listed and not gone through yet.  `accepted` is history only: which attempt
      the last acceptance of a request was.
  */
  datatype State = State(
    submitter: Submitter,
    requests: seq<Request>,             // the queue of size one
    worker: Worker,
    outstanding: set<Request>,
    abandoned: map<Request, Proc>,
    passes: map<Thread, set<Item>>,
    alive: set<Proc>,
    nextProc: Proc,
    stopping: bool,
    counters: Counters,
    accepted: map<Request, nat>,
    queueWasFull: bool)                 // ghost-like: the full branch has been taken

  const Initial :=
    State(Ready, [], Idle, {}, map[], map[], {}, 0, false, Counters(0, 0, 0, 0, 0, 0, 0, 0), map[], false)

  datatype Step =
    | Call(request: Request)
    | Submit
    | Put
    | Take
    | SpawnFails
    | Spawn
    | Exit(proc: Proc)
    | Expire
    | KillWorks(readable: bool)
    | Abandon
    | Report(output: Output)
    | Finish
    | List
    | ListElsewhere(n: nat)
    | Release(thread: Thread, item: Item)
    | Skip(thread: Thread, item: Item)
    | Stop
    | Quit

  function PassOf(s: State, t: Thread): set<Item> { if t in s.passes then s.passes[t] else {} }

  function Listing(s: State): set<Item> {
    set r | r in s.abandoned :: Item(r, s.abandoned[r], s.counters.attempts)
  }

  /** The first part of a pass. */
  function Lists(s: State, t: Thread): State { s.(passes := s.passes[t := Listing(s)]) }

  function Passed(s: State, t: Thread, item: Item): State { s.(passes := s.passes[t := PassOf(s, t) - {item}]) }

  /** The end of a pass for one helper that has died. */
  function Released(s: State, t: Thread, item: Item): State {
    Passed(s, t, item).(abandoned := s.abandoned - {item.request}, outstanding := s.outstanding - {item.request})
  }

  /** Where the worker goes after reading the output of request `r`, and how it is counted. */
  function EndOf(r: Request, reading: Reading): Worker {
    if reading.Raised? then Crashed(false) else Finishing(r, reading != Judged(Failure(true)))
  }

  function Counted(c: Counters, stopping: bool, reading: Reading): Counters {
    if reading.Raised? then c
    else if reading == Judged(Success) then c.(successes := c.successes + 1)
    else if reading == Judged(Mismatch) then c.(identityMismatches := c.identityMismatches + 1)
    else if reading.BadExit? && stopping then c.(cancelled := c.cancelled + 1)
    else c.(errors := c.errors + 1)
  }

  /** The end of `_collect` after the helper of request `r` has exited. */
  function Classify(s: State, r: Request, reading: Reading): State {
    s.(worker := EndOf(r, reading), counters := Counted(s.counters, s.stopping, reading))
  }

  /** The decision of `submit`, once its own pass is over. */
  function Decide(s: State): State
    requires s.submitter.Calling?
  {
    var c, r := s.counters, s.submitter.request;
    if s.outstanding != {} then s.(submitter := Ready, counters := c.(skippedOutstanding := c.skippedOutstanding + 1))
    else
      s.(submitter := Putting(r), outstanding := {r}, counters := c.(attempts := c.attempts + 1),
         accepted := s.accepted[r := c.attempts + 1])
  }

  /** The sampler thread, in `submit`. */
  function SamplerNext(s: State, step: Step): State {
    var c := s.counters;
    match step
    case Call(r) => if s.submitter.Ready? then Lists(s, SamplerThread).(submitter := Calling(r)) else s
    case Submit => if s.submitter.Calling? && PassOf(s, SamplerThread) == {} then Decide(s) else s
    case Put =>
      if !s.submitter.Putting? then s
      else if |s.requests| >= 1 then
        s.(submitter := Ready, outstanding := s.outstanding - {s.submitter.request}, queueWasFull := true,
           counters := c.(skippedOutstanding := c.skippedOutstanding + 1))
      else s.(submitter := Ready, requests := s.requests + [s.submitter.request])
    case _ => s
  }

  /** The worker thread, when the helper's output reads as `reading`. */
  function WorkerNext(s: State, step: Step, reading: Reading): State {
    var c := s.counters;
    match step
    case Take =>
      if s.worker != Idle || PassOf(s, WorkerThread) != {} || s.requests == [] then s
      else s.(worker := Starting(s.requests[0]), requests := s.requests[1..])
    case SpawnFails =>
      if !s.worker.Starting? then s
      else s.(worker := Finishing(s.worker.request, true), counters := c.(errors := c.errors + 1))
    case Spawn =>
      if !s.worker.Starting? then s
      else s.(worker := Running(s.worker.request, s.nextProc), alive := s.alive + {s.nextProc}, nextProc := s.nextProc + 1)
    case Expire =>
      if !s.worker.Running? then s
      else s.(worker := Killing(s.worker.request, s.worker.proc), counters := c.(timeouts := c.timeouts + 1))
    case KillWorks(readable) =>
      if !s.worker.Killing? || s.worker.proc in s.alive then s
      else if !readable then s.(worker := Crashed(true))
      else s.(worker := Finishing(s.worker.request, true))
    case Abandon =>
      if !s.worker.Killing? then s
      else s.(worker := Finishing(s.worker.request, false), abandoned := s.abandoned[s.worker.request := s.worker.proc],
              counters := c.(abandonedHelpers := c.abandonedHelpers + 1))
    case Report(_) =>
      if !s.worker.Running? || s.worker.proc in s.alive then s else Classify(s, s.worker.request, reading)
    case Finish =>
      if !s.worker.Finishing? then s
      else s.(worker := Reaping,
              outstanding := if s.worker.discards then s.outstanding - {s.worker.request} else s.outstanding)
    case List => if s.worker.Reaping? then Lists(s, WorkerThread).(worker := Idle) else s
    case Quit => if s.worker != Idle || PassOf(s, WorkerThread) != {} || !s.stopping then s else s.(worker := Stopped)
    case _ => s
  }

  /** Processes, other threads, and whichever thread goes on with its pass. */
  function RestNext(s: State, step: Step): State {
    match step
    case Exit(p) => s.(alive := s.alive - {p})
    case ListElsewhere(n) => if PassOf(s, OtherThread(n)) == {} then Lists(s, OtherThread(n)) else s
    case Release(t, item) => if item in PassOf(s, t) && item.proc !in s.alive then Released(s, t, item) else s
    case Skip(t, item) => if item in PassOf(s, t) && item.proc in s.alive then Passed(s, t, item) else s
    case Stop => s.(stopping := true)
    case _ => s
  }

  predicate OfSampler(step: Step) { step.Call? || step.Submit? || step.Put? }

  predicate OfRest(step: Step) {
    step.Exit? || step.ListElsewhere? || step.Release? || step.Skip? || step.Stop?
  }

  /** A step, when the helper's output reads as `reading`. */
  function NextAs(s: State, step: Step, reading: Reading): State {
    if OfSampler(step) then SamplerNext(s, step) else if OfRest(step) then RestNext(s, step) else WorkerNext(s, step, reading)
  }

  /** What the output in a step reads as. */
  function ReadingIn(s: State, step: Step): Reading {
    if step.Report? && s.worker.Running? then ReadingOf(s.worker.request, step.output) else Raised
  }

  function Next(s: State, step: Step): State { NextAs(s, step, ReadingIn(s, step)) }

  ghost function Run(steps: seq<Step>): State
    decreases |steps|
  {
    if steps == [] then Initial else Next(Run(steps[..|steps| - 1]), steps[|steps| - 1])
  }

  // ----- late releases -----

  /** The listed request is outstanding because it has been accepted again since the pass listed it. */
  predicate IsLate(s: State, item: Item) {
    item.request in s.outstanding && item.request in s.accepted && s.accepted[item.request] > item.listed
  }

  predicate ReleasesLate(s: State, step: Step) {
    step.Release? && step.item in PassOf(s, step.thread) && step.item.proc !in s.alive && IsLate(s, step.item)
  }

  /** No release in the run is late. */
  ghost predicate Careful(steps: seq<Step>)
    decreases |steps|
  {
    steps == [] || (Careful(steps[..|steps| - 1]) && !ReleasesLate(Run(steps[..|steps| - 1]), steps[|steps| - 1]))
  }

  // ----- the invariant -----

  function One(b: bool): nat { if b then 1 else 0 }

  /** Places where a request still has to be answered for: being put, queued, in the worker's hands, or abandoned. */
  function Holders(s: State): nat {
    One(s.submitter.Putting?) + |s.requests| + One(WorkerHolds(s.worker)) + One(s.abandoned != map[])
  }

  predicate WorkerHolds(w: Worker) {
    w.Starting? || w.Running? || w.Killing? || (w.Finishing? && w.discards)
  }

  /** Every holder's request is outstanding, and there is at most one of either. */
  ghost predicate OneAtATime(s: State) {
    && Holders(s) <= 1
    && (s.outstanding == {} ==> Holders(s) == 0)
    && (forall q, r :: q in s.outstanding && r in s.outstanding ==> q == r)
    && (s.worker.Crashed? ==> s.outstanding != {} && Holders(s) == 0)
    && (s.submitter.Putting? ==> s.outstanding == {s.submitter.request})
    && (forall r :: r in s.requests ==> s.outstanding == {r})
    && (WorkerHolds(s.worker) ==> s.outstanding == {s.worker.request})
    && (forall r :: r in s.abandoned ==> s.outstanding == {r})
  }

  /** A live process is the worker's or an abandoned one. */
  ghost predicate HelpersAreHeld(s: State) {
    && (forall p :: p in s.alive ==> p < s.nextProc)
    && (forall p :: p in s.alive ==>
         || ((s.worker.Running? || s.worker.Killing?) && s.worker.proc == p)
         || exists r :: r in s.abandoned && s.abandoned[r] == p)
  }

  /** What a pass has listed is still abandoned, unless its request has been released, or accepted again, since. */
  ghost predicate ItemFits(s: State, item: Item) {
    && item.listed <= s.counters.attempts
    && (item.request in s.outstanding ==>
          item.request in s.accepted
          && (IsLate(s, item) || (item.request in s.abandoned && s.abandoned[item.request] == item.proc)))
  }

  ghost predicate ItemsFit(s: State) {
    && (forall r :: r in s.outstanding ==> r in s.accepted && s.accepted[r] <= s.counters.attempts)
    && (forall t, item :: item in PassOf(s, t) ==> ItemFits(s, item))
    && forall t, i, j :: i in PassOf(s, t) && j in PassOf(s, t) ==> i == j
  }

  /** A thread does nothing else before its pass is over. */
  predicate PassesLast(s: State) {
    && (!s.submitter.Calling? ==> PassOf(s, SamplerThread) == {})
    && (s.worker != Idle ==> PassOf(s, WorkerThread) == {})
    && (s.worker.Stopped? ==> s.stopping)
  }

  /** Accepted requests that no counter has classified. */
  function Unclassified(s: State): nat {
    One(s.submitter.Putting?) + |s.requests| + One(s.worker.Starting? || s.worker.Running? || s.worker == Crashed(false))
  }

  predicate Balanced(s: State) {
    var c := s.counters;
    c.attempts == c.successes + c.timeouts + c.errors + c.identityMismatches + c.cancelled + Unclassified(s)
  }

  ghost predicate Inv(s: State) {
    OneAtATime(s) && HelpersAreHeld(s) && ItemsFit(s) && PassesLast(s) && Balanced(s) && !s.queueWasFull
  }

  // ----- every step -----

  lemma SamplerKeepsOne(s: State, step: Step)
    requires OneAtATime(s)
    ensures OneAtATime(SamplerNext(s, step)) && (SamplerNext(s, step).queueWasFull ==> s.queueWasFull)
  {
  }

  lemma ClassifyKeepsOne(s: State, reading: Reading)
    requires OneAtATime(s) && s.worker.Running?
    ensures OneAtATime(Classify(s, s.worker.request, reading))
    ensures Classify(s, s.worker.request, reading).queueWasFull == s.queueWasFull
  {
  }

  lemma EndKeepsOne(s: State, step: Step)
    requires OneAtATime(s) && (step.Abandon? || step.Finish?)
    ensures OneAtATime(WorkerNext(s, step, Raised)) && WorkerNext(s, step, Raised).queueWasFull == s.queueWasFull
  {
  }

  lemma WorkKeepsOne(s: State, step: Step)
    requires OneAtATime(s) && !step.Report? && !step.Abandon? && !step.Finish?
    ensures OneAtATime(WorkerNext(s, step, Raised)) && WorkerNext(s, step, Raised).queueWasFull == s.queueWasFull
  {
  }

  lemma WorkerKeepsOne(s: State, step: Step, reading: Reading)
    requires OneAtATime(s) && !step.Report?
    ensures OneAtATime(WorkerNext(s, step, reading)) && WorkerNext(s, step, reading).queueWasFull == s.queueWasFull
  {
    assert WorkerNext(s, step, reading) == WorkerNext(s, step, Raised);
    if step.Abandon? || step.Finish? { EndKeepsOne(s, step); } else { WorkKeepsOne(s, step); }
  }

  lemma ReleaseKeepsOne(s: State, t: Thread, item: Item)
    requires OneAtATime(s) && ItemsFit(s) && item in PassOf(s, t) && !IsLate(s, item)
    ensures OneAtATime(Released(s, t, item))
  {
    var r, s' := item.request, Released(s, t, item);
    assert ItemFits(s, item);
    if r in s.outstanding {
      assert forall q :: q in s.abandoned ==> q == r;
      assert s'.abandoned == map[] && s'.outstanding == {};
    } else {
      assert s'.abandoned == s.abandoned && s'.outstanding == s.outstanding;
    }
  }

  lemma RestKeepsOne(s: State, step: Step)
    requires OneAtATime(s) && ItemsFit(s) && !ReleasesLate(s, step)
    ensures OneAtATime(RestNext(s, step)) && RestNext(s, step).queueWasFull == s.queueWasFull
  {
    if step.Release? && step.item in PassOf(s, step.thread) && step.item.proc !in s.alive {
      ReleaseKeepsOne(s, step.thread, step.item);
    }
  }

  lemma StepKeepsOne(s: State, step: Step, reading: Reading)
    requires OneAtATime(s) && ItemsFit(s) && !ReleasesLate(s, step)
    ensures OneAtATime(NextAs(s, step, reading))
    ensures NextAs(s, step, reading).queueWasFull ==> s.queueWasFull
  {
    if OfSampler(step) {
      SamplerKeepsOne(s, step);
    } else if OfRest(step) {
      RestKeepsOne(s, step);
    } else if step.Report? {
      if s.worker.Running? { ClassifyKeepsOne(s, reading); }
    } else {
      WorkerKeepsOne(s, step, reading);
    }
  }

  /** Live processes stay held while abandoned ones and the worker's do. */
  lemma HelpersStay(s: State, s': State)
    requires HelpersAreHeld(s) && s'.alive <= s.alive && s'.nextProc == s.nextProc
    requires (s.worker.Running? || s.worker.Killing?) && s.worker.proc in s'.alive ==>
               ((s'.worker.Running? || s'.worker.Killing?) && s'.worker.proc == s.worker.proc)
               || (s.worker.request in s'.abandoned && s'.abandoned[s.worker.request] == s.worker.proc)
    requires forall r :: r in s.abandoned && s.abandoned[r] in s'.alive ==>
               r in s'.abandoned && s'.abandoned[r] == s.abandoned[r]
    ensures HelpersAreHeld(s')
  {
    forall p | p in s'.alive && !((s'.worker.Running? || s'.worker.Killing?) && s'.worker.proc == p)
      ensures exists r :: r in s'.abandoned && s'.abandoned[r] == p
    {
      if r :| r in s.abandoned && s.abandoned[r] == p { assert r in s'.abandoned && s'.abandoned[r] == p; }
    }
  }

  lemma SpawnKeepsHelpers(s: State)
    requires HelpersAreHeld(s) && s.worker.Starting?
    ensures HelpersAreHeld(WorkerNext(s, Spawn, Raised))
  {
    var s' := WorkerNext(s, Spawn, Raised);
    forall p | p in s'.alive && p != s.nextProc
      ensures exists r :: r in s'.abandoned && s'.abandoned[r] == p
    {
      var r :| r in s.abandoned && s.abandoned[r] == p;
      assert r in s'.abandoned && s'.abandoned[r] == p;
    }
  }

  lemma WorkerKeepsHelpers(s: State, step: Step, reading: Reading)
    requires OneAtATime(s) && HelpersAreHeld(s) && !step.Spawn?
    ensures HelpersAreHeld(WorkerNext(s, step, reading))
  {
    HelpersStay(s, WorkerNext(s, step, reading));
  }

  lemma RestKeepsHelpers(s: State, step: Step)
    requires OneAtATime(s) && HelpersAreHeld(s) && ItemsFit(s) && !ReleasesLate(s, step)
    ensures HelpersAreHeld(RestNext(s, step))
  {
    if step.Release? && step.item in PassOf(s, step.thread) { assert ItemFits(s, step.item); }
    HelpersStay(s, RestNext(s, step));
  }

  lemma StepKeepsHelpers(s: State, step: Step, reading: Reading)
    requires OneAtATime(s) && HelpersAreHeld(s) && ItemsFit(s) && !ReleasesLate(s, step)
    ensures HelpersAreHeld(NextAs(s, step, reading))
  {
    if OfSampler(step) {
      HelpersStay(s, SamplerNext(s, step));
    } else if OfRest(step) {
      RestKeepsHelpers(s, step);
    } else if step.Spawn? {
      if s.worker.Starting? { SpawnKeepsHelpers(s); }
    } else {
      WorkerKeepsHelpers(s, step, reading);
    }
  }

  /** Items stay fitting while passes and outstanding requests only shrink and nothing outstanding stops being abandoned. */
  lemma ItemsStay(s: State, s': State)
    requires ItemsFit(s) && s'.counters.attempts == s.counters.attempts && s'.accepted == s.accepted
    requires s'.outstanding <= s.outstanding && forall t :: PassOf(s', t) <= PassOf(s, t)
    requires forall r :: r in s'.outstanding && r in s.abandoned ==> r in s'.abandoned && s'.abandoned[r] == s.abandoned[r]
    ensures ItemsFit(s')
  {
    forall t, item | item in PassOf(s', t)
      ensures ItemFits(s', item)
    {
      assert item in PassOf(s, t) && ItemFits(s, item);
    }
    forall t, i, j | i in PassOf(s', t) && j in PassOf(s', t)
      ensures i == j
    {
      assert i in PassOf(s, t) && j in PassOf(s, t);
    }
  }

  lemma ListsKeepsItems(s: State, t: Thread)
    requires OneAtATime(s) && ItemsFit(s)
    ensures ItemsFit(Lists(s, t))
  {
    var s' := Lists(s, t);
    assert forall q, r :: q in s.abandoned && r in s.abandoned ==> q == r;
    forall u, item | item in PassOf(s', u)
      ensures ItemFits(s', item)
    {
      if u != t { assert item in PassOf(s, u) && ItemFits(s, item); }
    }
    forall u, i, j | i in PassOf(s', u) && j in PassOf(s', u)
      ensures i == j
    {
      if u != t { assert i in PassOf(s, u) && j in PassOf(s, u); }
    }
  }

  lemma DecideKeepsItems(s: State)
    requires ItemsFit(s) && s.submitter.Calling?
    ensures ItemsFit(Decide(s))
  {
    var s' := Decide(s);
    forall t, item | item in PassOf(s', t)
      ensures ItemFits(s', item)
    {
      assert item in PassOf(s, t) && ItemFits(s, item);
    }
    forall t, i, j | i in PassOf(s', t) && j in PassOf(s', t)
      ensures i == j
    {
      assert i in PassOf(s, t) && j in PassOf(s, t);
    }
  }

  lemma SamplerKeepsItems(s: State, step: Step)
    requires OneAtATime(s) && ItemsFit(s)
    ensures ItemsFit(SamplerNext(s, step))
  {
    if step.Call? && s.submitter.Ready? {
      ListsKeepsItems(s, SamplerThread);
      ItemsStay(Lists(s, SamplerThread), SamplerNext(s, step));
    } else if step.Submit? {
      if s.submitter.Calling? { DecideKeepsItems(s); }
    } else {
      ItemsStay(s, SamplerNext(s, step));
    }
  }

  /** What the worker leaves alone while it neither lists nor abandons. */
  predicate Framed(s: State, s': State) {
    && s'.passes == s.passes && s'.abandoned == s.abandoned && s'.accepted == s.accepted
    && s'.counters.attempts == s.counters.attempts && s'.outstanding <= s.outstanding
  }

  lemma WorkerFrame(s: State, step: Step, reading: Reading)
    requires !step.List? && !step.Abandon?
    ensures Framed(s, WorkerNext(s, step, reading))
  {
    if step.Report? {
      ReportFrame(s, step, reading);
    } else if step.SpawnFails? || step.Expire? {
      CountingFrame(s, step, reading);
    } else if OfSampler(step) || OfRest(step) {
      OthersFrame(s, step, reading);
    } else if step.KillWorks? || step.Quit? {
      EndingFrame(s, step, reading);
    } else {
      QuietFrame(s, step, reading);
    }
  }

  lemma ReportFrame(s: State, step: Step, reading: Reading)
    requires step.Report?
    ensures Framed(s, WorkerNext(s, step, reading))
  {
    if s.worker.Running? { ClassifyFrame(s, s.worker.request, reading); }
  }

  lemma ClassifyFrame(s: State, r: Request, reading: Reading)
    ensures Framed(s, Classify(s, r, reading))
  {
  }

  lemma QuietFrame(s: State, step: Step, reading: Reading)
    requires step.Take? || step.Spawn? || step.Finish?
    ensures Framed(s, WorkerNext(s, step, reading))
  {
  }

  lemma EndingFrame(s: State, step: Step, reading: Reading)
    requires step.KillWorks? || step.Quit?
    ensures Framed(s, WorkerNext(s, step, reading))
  {
  }

  lemma CountingFrame(s: State, step: Step, reading: Reading)
    requires step.SpawnFails? || step.Expire?
    ensures Framed(s, WorkerNext(s, step, reading))
  {
  }

  lemma OthersFrame(s: State, step: Step, reading: Reading)
    requires OfSampler(step) || OfRest(step)
    ensures Framed(s, WorkerNext(s, step, reading))
  {
  }

  lemma FrameKeepsItems(s: State, s': State)
    requires ItemsFit(s) && Framed(s, s')
    ensures ItemsFit(s')
  {
    ItemsStay(s, s');
  }

  lemma AbandonKeepsItems(s: State)
    requires OneAtATime(s) && ItemsFit(s)
    ensures ItemsFit(WorkerNext(s, Abandon, Raised))
  {
    ItemsStay(s, WorkerNext(s, Abandon, Raised));
  }

  lemma WorkerListKeepsItems(s: State)
    requires OneAtATime(s) && ItemsFit(s) && s.worker.Reaping?
    ensures ItemsFit(WorkerNext(s, List, Raised))
  {
    ListsKeepsItems(s, WorkerThread);
    FrameKeepsItems(Lists(s, WorkerThread), WorkerNext(s, List, Raised));
  }

  lemma WorkerKeepsItems(s: State, step: Step, reading: Reading)
    requires OneAtATime(s) && ItemsFit(s) && !step.Abandon?
    ensures ItemsFit(WorkerNext(s, step, reading))
  {
    if step.List? {
      if s.worker.Reaping? { WorkerListKeepsItems(s); }
    } else {
      WorkerFrame(s, step, reading);
      FrameKeepsItems(s, WorkerNext(s, step, reading));
    }
  }

  lemma RestKeepsItems(s: State, step: Step)
    requires OneAtATime(s) && ItemsFit(s)
    ensures ItemsFit(RestNext(s, step))
  {
    if step.ListElsewhere? {
      ListsKeepsItems(s, OtherThread(step.n));
    } else {
      ItemsStay(s, RestNext(s, step));
    }
  }

  lemma StepKeepsItems(s: State, step: Step, reading: Reading)
    requires OneAtATime(s) && ItemsFit(s)
    ensures ItemsFit(NextAs(s, step, reading))
  {
    if OfSampler(step) {
      SamplerKeepsItems(s, step);
    } else if OfRest(step) {
      RestKeepsItems(s, step);
    } else if step.Abandon? {
      AbandonKeepsItems(s);
    } else {
      WorkerKeepsItems(s, step, reading);
    }
  }

  lemma ClassifyKeepsBalance(s: State, reading: Reading)
    requires Balanced(s) && s.worker.Running?
    ensures Balanced(Classify(s, s.worker.request, reading))
  {
  }

  lemma WorkerKeepsBalance(s: State, step: Step, reading: Reading)
    requires Balanced(s)
    ensures Balanced(WorkerNext(s, step, reading))
  {
    if step.Report? {
      if s.worker.Running? { ClassifyKeepsBalance(s, reading); }
    }
  }

  lemma WorkerKeepsLast(s: State, step: Step, reading: Reading)
    requires PassesLast(s)
    ensures PassesLast(WorkerNext(s, step, reading))
  {
  }

  lemma WorkerKeepsRest(s: State, step: Step, reading: Reading)
    requires PassesLast(s) && Balanced(s)
    ensures PassesLast(WorkerNext(s, step, reading)) && Balanced(WorkerNext(s, step, reading))
  {
    WorkerKeepsLast(s, step, reading);
    WorkerKeepsBalance(s, step, reading);
  }

  lemma SamplerKeepsRest(s: State, step: Step)
    requires OneAtATime(s) && PassesLast(s) && Balanced(s)
    ensures PassesLast(SamplerNext(s, step)) && Balanced(SamplerNext(s, step))
  {
  }

  lemma RestKeepsRest(s: State, step: Step)
    requires PassesLast(s) && Balanced(s)
    ensures PassesLast(RestNext(s, step)) && Balanced(RestNext(s, step))
  {
  }

  lemma StepKeepsRest(s: State, step: Step, reading: Reading)
    requires OneAtATime(s) && PassesLast(s) && Balanced(s)
    ensures PassesLast(NextAs(s, step, reading)) && Balanced(NextAs(s, step, reading))
  {
    if OfSampler(step) {
      SamplerKeepsRest(s, step);
    } else if OfRest(step) {
      RestKeepsRest(s, step);
    } else {
      WorkerKeepsRest(s, step, reading);
    }
  }

  lemma StepKeepsInv(s: State, step: Step, reading: Reading)
    requires Inv(s) && !ReleasesLate(s, step)
    ensures Inv(NextAs(s, step, reading))
  {
    StepKeepsOne(s, step, reading);
    StepKeepsHelpers(s, step, reading);
    StepKeepsItems(s, step, reading);
    StepKeepsRest(s, step, reading);
  }

  lemma {:induction false} RunKeepsInv(steps: seq<Step>)
    requires Careful(steps)
    ensures Inv(Run(steps))
    decreases |steps|
  {
    if steps != [] {
      var before, step := Run(steps[..|steps| - 1]), steps[|steps| - 1];
      RunKeepsInv(steps[..|steps| - 1]);
      StepKeepsInv(before, step, ReadingIn(before, step));
    }
  }

  // ----- the theorems -----

  lemma AtMostOne(s: set<Proc>)
    requires forall p, q :: p in s && q in s ==> p == q
    ensures |s| <= 1
  {
    if p :| p in s { assert s == {p}; }
  }

  lemma OneHelper(s: State)
    requires Inv(s)
    ensures |s.alive| <= 1
  {
    forall p, q | p in s.alive && q in s.alive
      ensures p == q
    {
    }
    AtMostOne(s.alive);
  }

  /** In every reachable state at most one helper process is alive, exactly when no release is late. */
  lemma AtMostOneHelper(late: bool)
    ensures (forall steps :: late || Careful(steps) ==> |Run(steps).alive| <= 1) <==> !late
  {
    if late {
      var steps := TwoHelpers(Request(1, 1));
    } else {
      forall steps | Careful(steps)
        ensures |Run(steps).alive| <= 1
      {
        RunKeepsInv(steps);
        OneHelper(Run(steps));
      }
    }
  }

  /** Queued requests are outstanding, and no put has found the queue full. */
  predicate QueueInOrder(s: State) {
    !s.queueWasFull && |s.requests| <= 1 && forall r :: r in s.requests ==> r in s.outstanding
  }

  /** In every reachable state the queue is in order, exactly when no release is late. */
  lemma QueueIsNeverFull(late: bool)
    ensures (forall steps :: late || Careful(steps) ==> QueueInOrder(Run(steps))) <==> !late
  {
    if late {
      var steps := QueuedNotOutstanding(Request(1, 1));
    } else {
      forall steps | Careful(steps)
        ensures QueueInOrder(Run(steps))
      {
        RunKeepsInv(steps);
      }
    }
  }

  /** In every reachable state the attempts are the requests classified, each once, and at most one not yet classified,
      exactly when no release is late.
  */
  lemma CountersBalance(late: bool)
    ensures (forall steps :: late || Careful(steps) ==> Balanced(Run(steps)) && Unclassified(Run(steps)) <= 1) <==> !late
  {
    if late {
      var steps := AttemptDropped(Request(1, 1));
    } else {
      forall steps | Careful(steps)
        ensures Balanced(Run(steps)) && Unclassified(Run(steps)) <= 1
      {
        RunKeepsInv(steps);
      }
    }
  }

  /** A release is late exactly when its request is outstanding and the entry the pass has listed is no longer there:
      something the release could look at while it holds the lock.
  */
  lemma LateIsVisible(steps: seq<Step>, t: Thread, item: Item)
    requires Careful(steps) && item in PassOf(Run(steps), t)
    ensures var s := Run(steps);
            IsLate(s, item) <==>
            item.request in s.outstanding && !(item.request in s.abandoned && s.abandoned[item.request] == item.proc)
  {
    RunKeepsInv(steps);
    RunKeepsProcs(steps);
    assert ItemFits(Run(steps), item);
    assert Outdated(Run(steps), item);
  }

  /** A process that runs or is abandoned for a request accepted since the listing is not the one listed. */
  predicate Outdated(s: State, item: Item) {
    && item.proc < s.nextProc
    && (IsLate(s, item) ==>
          && (item.request in s.abandoned ==> s.abandoned[item.request] != item.proc)
          && ((s.worker.Running? || s.worker.Killing?) && s.worker.request == item.request ==> s.worker.proc != item.proc))
  }

  ghost predicate ProcsDiffer(s: State) {
    && (forall r :: r in s.abandoned ==> s.abandoned[r] < s.nextProc)
    && (s.worker.Running? || s.worker.Killing? ==> s.worker.proc < s.nextProc)
    && forall t, item :: item in PassOf(s, t) ==> Outdated(s, item)
  }

  lemma ListsKeepsProcs(s: State, t: Thread)
    requires ProcsDiffer(s) && ItemsFit(s) && OneAtATime(s)
    ensures ProcsDiffer(Lists(s, t))
  {
    var s' := Lists(s, t);
    forall u, item | item in PassOf(s', u)
      ensures Outdated(s', item)
    {
      if u != t { assert item in PassOf(s, u) && Outdated(s, item); }
    }
  }

  lemma ProcsStay(s: State, s': State)
    requires ProcsDiffer(s) && s'.accepted == s.accepted && s'.outstanding <= s.outstanding && s'.nextProc >= s.nextProc
    requires forall t :: PassOf(s', t) <= PassOf(s, t)
    requires forall r :: r in s'.abandoned ==>
               (r in s.abandoned && s'.abandoned[r] == s.abandoned[r])
               || (s.worker.Killing? && s.worker.request == r && s'.abandoned[r] == s.worker.proc)
    requires s'.worker.Running? || s'.worker.Killing? ==>
               || (s'.worker.proc == s.nextProc < s'.nextProc)
               || ((s.worker.Running? || s.worker.Killing?)
                   && s'.worker.request == s.worker.request && s'.worker.proc == s.worker.proc)
    ensures ProcsDiffer(s')
  {
    forall t, item | item in PassOf(s', t)
      ensures Outdated(s', item)
    {
      assert item in PassOf(s, t) && Outdated(s, item);
    }
  }

  lemma DecideKeepsProcs(s: State)
    requires ProcsDiffer(s) && OneAtATime(s) && s.submitter.Calling?
    ensures ProcsDiffer(Decide(s))
  {
    var s' := Decide(s);
    forall t, item | item in PassOf(s', t)
      ensures Outdated(s', item)
    {
      assert item in PassOf(s, t) && Outdated(s, item);
    }
  }

  /** The worker's process is the one it had, or it has none. */
  predicate SameProc(s: State, s': State) {
    && s'.nextProc == s.nextProc
    && (s'.worker.Running? || s'.worker.Killing? ==>
         && (s.worker.Running? || s.worker.Killing?)
         && s'.worker.request == s.worker.request && s'.worker.proc == s.worker.proc)
  }

  lemma FrameKeepsProcs(s: State, s': State)
    requires ProcsDiffer(s) && Framed(s, s') && SameProc(s, s')
    ensures ProcsDiffer(s')
  {
    ProcsStay(s, s');
  }

  lemma SamplerKeepsProcs(s: State, step: Step)
    requires ProcsDiffer(s) && ItemsFit(s) && OneAtATime(s)
    ensures ProcsDiffer(SamplerNext(s, step))
  {
    if step.Submit? {
      if s.submitter.Calling? { DecideKeepsProcs(s); }
    } else if step.Call? {
      ListsKeepsProcs(s, SamplerThread);
      if s.submitter.Ready? { FrameKeepsProcs(Lists(s, SamplerThread), SamplerNext(s, step)); }
    } else {
      FrameKeepsProcs(s, SamplerNext(s, step));
    }
  }

  lemma RestKeepsProcs(s: State, step: Step)
    requires ProcsDiffer(s) && ItemsFit(s) && OneAtATime(s)
    ensures ProcsDiffer(RestNext(s, step))
  {
    if step.ListElsewhere? {
      ListsKeepsProcs(s, OtherThread(step.n));
    } else {
      ProcsStay(s, RestNext(s, step));
    }
  }

  lemma AbandonKeepsProcs(s: State)
    requires ProcsDiffer(s)
    ensures ProcsDiffer(WorkerNext(s, Abandon, Raised))
  {
    ProcsStay(s, WorkerNext(s, Abandon, Raised));
  }

  lemma SpawnKeepsProcs(s: State)
    requires ProcsDiffer(s)
    ensures ProcsDiffer(WorkerNext(s, Spawn, Raised))
  {
    ProcsStay(s, WorkerNext(s, Spawn, Raised));
  }

  lemma WorkerListKeepsProcs(s: State)
    requires ProcsDiffer(s) && ItemsFit(s) && OneAtATime(s) && s.worker.Reaping?
    ensures ProcsDiffer(WorkerNext(s, List, Raised))
  {
    ListsKeepsProcs(s, WorkerThread);
    FrameKeepsProcs(Lists(s, WorkerThread), WorkerNext(s, List, Raised));
  }

  lemma WorkerSameProc(s: State, step: Step, reading: Reading)
    requires !step.List? && !step.Abandon? && !step.Spawn?
    ensures SameProc(s, WorkerNext(s, step, reading))
  {
  }

  lemma WorkerKeepsProcs(s: State, step: Step, reading: Reading)
    requires ProcsDiffer(s) && ItemsFit(s) && OneAtATime(s)
    ensures ProcsDiffer(WorkerNext(s, step, reading))
  {
    if step.List? {
      if s.worker.Reaping? { WorkerListKeepsProcs(s); }
    } else if step.Abandon? {
      AbandonKeepsProcs(s);
    } else if step.Spawn? {
      SpawnKeepsProcs(s);
    } else {
      WorkerFrame(s, step, reading);
      WorkerSameProc(s, step, reading);
      FrameKeepsProcs(s, WorkerNext(s, step, reading));
    }
  }

  lemma StepKeepsProcs(s: State, step: Step, reading: Reading)
    requires ProcsDiffer(s) && ItemsFit(s) && OneAtATime(s)
    ensures ProcsDiffer(NextAs(s, step, reading))
  {
    if OfSampler(step) {
      SamplerKeepsProcs(s, step);
    } else if OfRest(step) {
      RestKeepsProcs(s, step);
    } else {
      WorkerKeepsProcs(s, step, reading);
    }
  }

  lemma {:induction false} RunKeepsProcs(steps: seq<Step>)
    requires Careful(steps)
    ensures ProcsDiffer(Run(steps))
    decreases |steps|
  {
    if steps != [] {
      var before, step := steps[..|steps| - 1], steps[|steps| - 1];
      RunKeepsInv(before);
      RunKeepsProcs(before);
      StepKeepsProcs(Run(before), step, ReadingIn(Run(before), step));
    }
  }

  // ----- what each counter counts -----

  /** The helper has exited and its output is read. */
  predicate Reads(s: State, step: Step) { step.Report? && s.worker.Running? && s.worker.proc !in s.alive }

  /** It is a report that can be read. */
  predicate ReadsReport(s: State, step: Step) {
    Reads(s, step) && step.output.Printed? && Updates(step.output.json)
  }

  predicate Succeeds(s: State, step: Step) {
    ReadsReport(s, step) &&
    var members := MembersOf(step.output.json);
    !IsOfAnother(members, s.worker.request) && HasStatus(members, "ok")
  }

  predicate Mismatches(s: State, step: Step) {
    ReadsReport(s, step) &&
    var members := MembersOf(step.output.json);
    IsOfAnother(members, s.worker.request) || HasStatus(members, "identity_mismatch")
  }

  predicate Cancels(s: State, step: Step) { Reads(s, step) && step.output.ExitCode? && s.stopping }

  predicate Errs(s: State, step: Step) {
    || (step.SpawnFails? && s.worker.Starting?)
    || (Reads(s, step) && (step.output.NotJson? || (step.output.ExitCode? && !s.stopping)))
    || (ReadsReport(s, step) && !Succeeds(s, step) && !Mismatches(s, step))
  }

  predicate Attempts(s: State, step: Step) {
    step.Submit? && s.submitter.Calling? && PassOf(s, SamplerThread) == {} && s.outstanding == {}
  }

  predicate Skips(s: State, step: Step) {
    || (step.Submit? && s.submitter.Calling? && PassOf(s, SamplerThread) == {} && s.outstanding != {})
    || (step.Put? && s.submitter.Putting? && s.requests != [])
  }

  lemma ReadingJudged(s: State, step: Step)
    requires ReadsReport(s, step)
    ensures ReadingIn(s, step).Judged?
    ensures Succeeds(s, step) <==> ReadingIn(s, step) == Judged(Success)
    ensures Mismatches(s, step) <==> ReadingIn(s, step) == Judged(Mismatch)
  {
    JudgedBy(s.worker.request, step.output.json);
  }

  /** The counters after a step: each has risen by one if the step is one it is named for. */
  function CountedBy(s: State, step: Step): Counters {
    var c := s.counters;
    Counters(
      c.attempts + One(Attempts(s, step)), c.successes + One(Succeeds(s, step)),
      c.timeouts + One(step.Expire? && s.worker.Running?), c.errors + One(Errs(s, step)),
      c.identityMismatches + One(Mismatches(s, step)), c.cancelled + One(Cancels(s, step)),
      c.skippedOutstanding + One(Skips(s, step)), c.abandonedHelpers + One(step.Abandon? && s.worker.Killing?))
  }

  lemma SubmitCounts(s: State)
    ensures SamplerNext(s, Submit).counters == CountedBy(s, Submit)
  {
  }

  lemma PutCounts(s: State)
    ensures SamplerNext(s, Put).counters == CountedBy(s, Put)
  {
  }

  lemma CallCounts(s: State, step: Step)
    requires step.Call?
    ensures SamplerNext(s, step).counters == CountedBy(s, step)
  {
  }

  lemma SamplerCounts(s: State, step: Step)
    requires OfSampler(step)
    ensures SamplerNext(s, step).counters == CountedBy(s, step)
  {
    match step
    case Call(_) => CallCounts(s, step);
    case Submit => SubmitCounts(s);
    case Put => PutCounts(s);
  }

  lemma RestCounts(s: State, step: Step)
    requires OfRest(step)
    ensures RestNext(s, step).counters == CountedBy(s, step)
  {
  }

  lemma ReportCounts(s: State, step: Step)
    requires Reads(s, step)
    ensures Counted(s.counters, s.stopping, ReadingIn(s, step)) == CountedBy(s, step)
  {
    if ReadsReport(s, step) { ReadingJudged(s, step); }
  }

  lemma WorkerCounts(s: State, step: Step, reading: Reading)
    requires !OfSampler(step) && !OfRest(step) && !Reads(s, step)
    ensures WorkerNext(s, step, reading).counters == CountedBy(s, step)
  {
    if step.SpawnFails? || step.Expire? || step.Abandon? {
      EventCounts(s, step, reading);
    } else {
      OthersCount(s, step, reading);
    }
  }

  lemma EventCounts(s: State, step: Step, reading: Reading)
    requires step.SpawnFails? || step.Expire? || step.Abandon?
    ensures WorkerNext(s, step, reading).counters == CountedBy(s, step)
  {
  }

  lemma OthersCount(s: State, step: Step, reading: Reading)
    requires !OfSampler(step) && !OfRest(step) && !Reads(s, step)
    requires !step.SpawnFails? && !step.Expire? && !step.Abandon?
    ensures WorkerNext(s, step, reading).counters == CountedBy(s, step)
  {
  }

  /** Every counter rises by one with the steps it is named for, and with no other, in every state. */
  lemma CountersCount(s: State, step: Step)
    ensures Next(s, step).counters == CountedBy(s, step)
  {
    if OfSampler(step) {
      SamplerCounts(s, step);
    } else if OfRest(step) {
      RestCounts(s, step);
    } else if Reads(s, step) {
      ReportCounts(s, step);
    } else {
      WorkerCounts(s, step, ReadingIn(s, step));
    }
  }

  // ----- runs with a late release -----

  lemma Extend(steps: seq<Step>, step: Step)
    ensures Run(steps + [step]) == Next(Run(steps), step)
  {
    assert (steps + [step])[..|steps|] == steps;
  }

  lemma ListingOf(s: State, r: Request, p: Proc)
    requires s.abandoned == map[r := p]
    ensures Listing(s) == {Item(r, p, s.counters.attempts)}
  {
    assert r in s.abandoned && forall q :: q in s.abandoned ==> q == r;
  }

  /** What the passes of the sampler and the worker have listed. */
  function Passes(sampler: set<Item>, worker: set<Item>): map<Thread, set<Item>> {
    map[SamplerThread := sampler, WorkerThread := worker]
  }

  /** A state whose only processes and requests are those given, after a worker's pass has listed `left`. */
  function At(submitter: Submitter, requests: seq<Request>, worker: Worker, outstanding: set<Request>,
              abandoned: map<Request, Proc>, left: set<Item>, alive: set<Proc>, nextProc: Proc, attempts: nat,
              timeouts: nat, r: Request): State
  {
    State(submitter, requests, worker, outstanding, abandoned, Passes({}, left), alive, nextProc, false,
          Counters(attempts, 0, timeouts, 0, 0, 0, 0, timeouts), map[r := attempts], false)
  }

  /** With nothing outstanding or abandoned, the sampler's call is accepted and put. */
  lemma PutsOne(s: State, r: Request)
    requires s.submitter.Ready? && s.outstanding == {} && s.abandoned == map[]
    ensures var s1 := Next(s, Call(r)); var s2 := Next(s1, Submit);
            && s1 == s.(passes := s.passes[SamplerThread := {}], submitter := Calling(r))
            && s2 == s1.(submitter := Putting(r), outstanding := {r}, accepted := s.accepted[r := s.counters.attempts + 1],
                         counters := s.counters.(attempts := s.counters.attempts + 1))
  {
    assert Listing(s) == {};
  }

  /** A helper of `r` runs, ... */
  lemma Runs(s: State, r: Request)
    requires s.worker == Idle && PassOf(s, WorkerThread) == {} && s.requests == [r]
    ensures Next(Next(s, Take), Spawn) ==
            s.(worker := Running(r, s.nextProc), requests := [], alive := s.alive + {s.nextProc}, nextProc := s.nextProc + 1)
  {
  }

  /** ... and is abandoned. */
  lemma Abandons(s: State, r: Request, p: Proc)
    requires s.worker == Running(r, p) && s.abandoned == map[]
    ensures Next(Next(Next(s, Expire), Abandon), Finish) ==
            s.(worker := Reaping, abandoned := map[r := p],
               counters := s.counters.(timeouts := s.counters.timeouts + 1,
                                       abandonedHelpers := s.counters.abandonedHelpers + 1))
  {
  }

  lemma Extend2(steps: seq<Step>, a: Step, b: Step) returns (more: seq<Step>)
    ensures more == steps + [a] + [b] && Run(more) == Next(Next(Run(steps), a), b)
  {
    Extend(steps, a);
    Extend(steps + [a], b);
    more := steps + [a] + [b];
  }

  lemma PutsRun(steps: seq<Step>, r: Request) returns (more: seq<Step>)
    requires var s := Run(steps); s.submitter.Ready? && s.outstanding == {} && s.abandoned == map[] && s.requests == []
    ensures more == steps + [Call(r)] + [Submit] + [Put]
    ensures var s := Run(steps);
            Run(more) == s.(passes := s.passes[SamplerThread := {}], requests := [r], outstanding := {r},
                            accepted := s.accepted[r := s.counters.attempts + 1],
                            counters := s.counters.(attempts := s.counters.attempts + 1))
  {
    PutsOne(Run(steps), r);
    more := Extend2(steps, Call(r), Submit);
    Extend(more, Put);
    more := more + [Put];
  }

  lemma AbandonsRun(steps: seq<Step>, r: Request) returns (more: seq<Step>)
    requires var s := Run(steps);
             s.worker == Idle && PassOf(s, WorkerThread) == {} && s.requests == [r] && s.abandoned == map[]
    ensures var s := Run(steps);
            Run(more) == s.(worker := Reaping, requests := [], alive := s.alive + {s.nextProc}, nextProc := s.nextProc + 1,
                            abandoned := map[r := s.nextProc],
                            counters := s.counters.(timeouts := s.counters.timeouts + 1,
                                                    abandonedHelpers := s.counters.abandonedHelpers + 1))
  {
    Runs(Run(steps), r);
    more := Extend2(steps, Take, Spawn);
    Abandons(Run(more), r, Run(steps).nextProc);
    more := Extend2(more, Expire, Abandon);
    Extend(more, Finish);
    more := more + [Finish];
  }

  lemma ListsOne(s: State, r: Request, p: Proc)
    requires s.worker.Reaping? && s.abandoned == map[r := p]
    ensures Next(s, List) == s.(worker := Idle, passes := s.passes[WorkerThread := {Item(r, p, s.counters.attempts)}])
  {
    ListingOf(s, r, p);
  }

  lemma CallsOne(s: State, r: Request, p: Proc)
    requires s.submitter.Ready? && s.abandoned == map[r := p]
    ensures Next(s, Call(r)) ==
            s.(submitter := Calling(r), passes := s.passes[SamplerThread := {Item(r, p, s.counters.attempts)}])
  {
    ListingOf(s, r, p);
  }

  lemma ReleasesOne(s: State, t: Thread, item: Item)
    requires PassOf(s, t) == {item} && item.proc !in s.alive && s.outstanding == {item.request}
    requires s.abandoned.Keys <= {item.request}
    ensures Next(s, Release(t, item)) == s.(passes := s.passes[t := {}], abandoned := map[], outstanding := {})
  {
    assert {item} - {item} == {} && s.abandoned - {item.request} == map[];
  }

  lemma SkipsOne(s: State, t: Thread, item: Item)
    requires PassOf(s, t) == {item} && item.proc in s.alive
    ensures Next(s, Skip(t, item)) == s.(passes := s.passes[t := {}])
  {
    assert {item} - {item} == {};
  }

  /** A helper is abandoned. */
  lemma HelperAbandoned(r: Request) returns (steps: seq<Step>)
    ensures Run(steps) ==
            State(Ready, [], Reaping, {r}, map[r := 0], map[SamplerThread := {}], {0}, 1, false,
                  Counters(1, 0, 1, 0, 0, 0, 0, 1), map[r := 1], false)
  {
    steps := PutsRun([], r);
    assert Run(steps).passes == map[SamplerThread := {}];
    steps := AbandonsRun(steps, r);
    assert Run(steps).alive == {0};
  }

  /** It dies, and the worker's pass lists it. */
  lemma ListedOnce(r: Request) returns (steps: seq<Step>)
    ensures Run(steps) == At(Ready, [], Idle, {r}, map[r := 0], {Item(r, 0, 1)}, {}, 1, 1, 1, r)
  {
    steps := HelperAbandoned(r);
    Extend(steps, Exit(0));
    steps := steps + [Exit(0)];
    assert Run(steps).alive == {};
    ListsOne(Run(steps), r, 0);
    Extend(steps, List);
    steps := steps + [List];
    assert Run(steps).passes == Passes({}, {Item(r, 0, 1)});
  }

  /** Then the sampler's pass lists it too, and releases its request. */
  lemma ListedTwice(r: Request) returns (steps: seq<Step>)
    ensures Run(steps) == At(Calling(r), [], Idle, {}, map[], {Item(r, 0, 1)}, {}, 1, 1, 1, r)
  {
    var i := Item(r, 0, 1);
    steps := ListedOnce(r);
    CallsOne(Run(steps), r, 0);
    ReleasesOne(Next(Run(steps), Call(r)), SamplerThread, i);
    steps := Extend2(steps, Call(r), Release(SamplerThread, i));
    assert Run(steps).passes == Passes({}, {i});
  }

  /** The request is accepted again and queued, and then the worker's pass releases it: it is queued and not outstanding.
  */
  lemma QueuedNotOutstanding(r: Request) returns (steps: seq<Step>)
    ensures Run(steps) == At(Ready, [r], Idle, {}, map[], {}, {}, 1, 2, 1, r) && !QueueInOrder(Run(steps))
  {
    var i := Item(r, 0, 1);
    steps := ListedTwice(r);
    steps := Extend2(steps, Submit, Put);
    assert Run(steps) == At(Ready, [r], Idle, {r}, map[], {i}, {}, 1, 2, 1, r);
    ReleasesOne(Run(steps), WorkerThread, i);
    Extend(steps, Release(WorkerThread, i));
    steps := steps + [Release(WorkerThread, i)];
    assert Run(steps).passes == Passes({}, {});
    assert r in Run(steps).requests;
  }

  /** One more submission finds the queue full, and its attempt is never classified. */
  lemma AttemptDropped(r: Request) returns (steps: seq<Step>)
    ensures Run(steps).queueWasFull && !Balanced(Run(steps))
  {
    steps := QueuedNotOutstanding(r);
    PutsOne(Run(steps), r);
    steps := Extend2(steps, Call(r), Submit);
    Extend(steps, Put);
    steps := steps + [Put];
  }

  /** Or the worker takes the queued request, which is accepted a third time and queued behind it. */
  lemma QueuedBehind(r: Request) returns (steps: seq<Step>)
    ensures Run(steps) == At(Ready, [r], Running(r, 1), {r}, map[], {}, {1}, 2, 3, 1, r)
  {
    steps := QueuedNotOutstanding(r);
    steps := Extend2(steps, Take, Spawn);
    assert Run(steps).alive == {1};
    steps := PutsRun(steps, r);
    assert Run(steps).passes == Passes({}, {});
  }

  /** Two helpers come to be alive at once. */
  lemma TwoHelpers(r: Request) returns (steps: seq<Step>)
    ensures Run(steps).alive == {1, 2} && |Run(steps).alive| == 2
  {
    steps := QueuedBehind(r);
    Abandons(Run(steps), r, 1);
    steps := Extend2(steps, Expire, Abandon);
    Extend(steps, Finish);
    steps := steps + [Finish];
    assert Run(steps) == At(Ready, [r], Reaping, {r}, map[r := 1], {}, {1}, 2, 3, 2, r);
    ListsOne(Run(steps), r, 1);
    SkipsOne(Next(Run(steps), List), WorkerThread, Item(r, 1, 3));
    steps := Extend2(steps, List, Skip(WorkerThread, Item(r, 1, 3)));
    assert Run(steps).worker == Idle && Run(steps).requests == [r] && PassOf(Run(steps), WorkerThread) == {};
    steps := Extend2(steps, Take, Spawn);
  }
}
