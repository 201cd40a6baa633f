/** The driver's slot-skipping pacer and the counters its accounting is accepted by.

    Times are integer nanoseconds since the pacer's start.  Slot `s` is due at `s` seconds divided by the rate, rounded
    down; the slot that is current at an instant is computed from the slot length rounded down.  The two roundings agree
    exactly when the rate divides a second, and that is exactly when the pacer skips only missed slots and never starts
    more operations than the rate allows.
*/
module Pacer {
  import opened Division

  const SECOND := 1_000_000_000
  const MILLISECOND := 1_000_000

  /** The slot length, rounded down. */
  function Interval(rps: nat): (r: nat)
    requires 0 < rps <= SECOND
    ensures r > 0
  {
    QuotientAtLeast(SECOND, rps, 1);
    SECOND / rps
  }

  /** When a slot is due. */
  function Due(rps: nat, slot: nat): nat
    requires 0 < rps <= SECOND
  {
    slot * SECOND / rps
  }

  /** The quotient rounded towards zero. */
  function Truncated(a: int, b: nat): int
    requires b > 0
  {
    if a >= 0 then a / b else -(-a / b)
  }

  function CurrentSlot(rps: nat, now: int): int
    requires 0 < rps <= SECOND
  {
    Truncated(now, Interval(rps))
  }

  /** One granted slot: the clock reading it was computed from, and when its operation started. */
  datatype Grant = Grant(now: int, slot: nat, skipped: nat, started: int)

  function NextSlot(log: seq<Grant>): nat {
    if log == [] then 0 else log[|log| - 1].slot + 1
  }

  /** `g` is what the pacer grants for the reading `g.now` when `next` is the next unreserved slot. */
  predicate Grants(rps: nat, next: nat, g: Grant)
    requires 0 < rps <= SECOND
  {
    && g.slot == (if CurrentSlot(rps, g.now) > next then CurrentSlot(rps, g.now) else next)
    && g.skipped == g.slot - next
    && g.started >= g.now
    && g.started >= Due(rps, g.slot)
  }

  /** The grants of one pacer, in lock order, for any clock readings. */
  ghost predicate IsRun(rps: nat, log: seq<Grant>)
    requires 0 < rps <= SECOND
  {
    log == [] || (IsRun(rps, log[..|log| - 1]) && Grants(rps, NextSlot(log[..|log| - 1]), log[|log| - 1]))
  }

  lemma Extend(rps: nat, log: seq<Grant>, g: Grant)
    requires 0 < rps <= SECOND && IsRun(rps, log) && Grants(rps, NextSlot(log), g)
    ensures IsRun(rps, log + [g])
  {
    assert (log + [g])[..|log|] == log;
  }

  function Later(a: int, b: int): int { if a > b then a else b }

  class Clocked {
    const rps: int
    var nextSlot: nat
    ghost var log: seq<Grant>

    ghost predicate Valid()
      reads this
    {
      && rps <= SECOND
      && (rps > 0 ==> IsRun(rps, log))
      && nextSlot == NextSlot(log)
    }

    constructor (rate: int)
      requires rate <= SECOND
      ensures Valid() && rps == rate && log == []
    {
      rps, nextSlot, log := rate, 0, [];
    }

    /** `phase4Pacer.wait`: `now` is the clock when the slot is reserved, and `slept` whether the caller had to sleep and
        then how late it woke.  Without a rate the answer is the unpaced sentinel.
    */
    method Wait(now: int, late: nat) returns (slotNS: int, lag: int, skipped: nat)
      requires Valid()
      modifies this
      ensures Valid()
      ensures rps <= 0 ==> (slotNS, lag, skipped) == (-1, 0, 0) && log == old(log)
      ensures rps > 0 ==>
                && |log| == |old(log)| + 1 && log[..|old(log)|] == old(log)
                && var g := log[|old(log)|];
                   g.now == now && slotNS == Due(rps, g.slot) && skipped == g.skipped && lag == g.started - slotNS
      ensures rps > 0 ==> lag == Later(slotNS, now) + late - slotNS
    {
      if rps <= 0 { return -1, 0, 0; }
      var interval := Interval(rps);
      var slot := nextSlot;
      var current := Truncated(now, interval);
      skipped := 0;
      if current > slot {
        skipped := current - slot;
        slot := current;
      }
      var target := Due(rps, slot);
      nextSlot := slot + 1;
      var actual := (if target - now > 0 then target else now) + late;
      lag := actual - target;
      if lag < 0 { lag := 0; }
      Extend(rps, log, Grant(now, slot, skipped, actual));
      log := log + [Grant(now, slot, skipped, actual)];
      return target, lag, skipped;
    }
  }

  // ----- every run -----

  ghost function SlotsUsed(log: seq<Grant>): nat {
    if log == [] then 0 else SlotsUsed(log[..|log| - 1]) + log[|log| - 1].skipped + 1
  }

  /** Skipped and granted slots together are exactly the slots up to the next one. */
  lemma {:induction false} SlotsAreConserved(rps: nat, log: seq<Grant>)
    requires 0 < rps <= SECOND && IsRun(rps, log)
    ensures SlotsUsed(log) == NextSlot(log)
  {
    if log != [] { SlotsAreConserved(rps, log[..|log| - 1]); }
  }

  /** No slot is granted twice, whatever the clock reads: granted slots strictly increase. */
  lemma {:induction false} SlotsIncrease(rps: nat, log: seq<Grant>, i: nat, j: nat)
    requires 0 < rps <= SECOND && IsRun(rps, log) && i < j < |log|
    ensures log[i].slot < log[j].slot
    decreases |log|
  {
    var before := log[..|log| - 1];
    if j < |log| - 1 {
      SlotsIncrease(rps, before, i, j);
      assert before[i] == log[i] && before[j] == log[j];
    } else if i < j - 1 {
      SlotsIncrease(rps, before, i, j - 1);
      assert before[i] == log[i] && before[j - 1] == log[j - 1];
    }
  }

  lemma {:induction false} RunOf(rps: nat, log: seq<Grant>, i: nat)
    requires 0 < rps <= SECOND && IsRun(rps, log) && i < |log|
    ensures IsRun(rps, log[..i]) && Grants(rps, NextSlot(log[..i]), log[i])
    decreases |log|
  {
    var before := log[..|log| - 1];
    if i < |log| - 1 {
      RunOf(rps, before, i);
      assert before[..i] == log[..i] && before[i] == log[i];
    } else {
      assert log[..i] == before;
    }
  }

  // ----- how many operations start -----

  ghost function Started(log: seq<Grant>, t: nat): set<nat> {
    set i: nat | i < |log| && log[i].started <= t
  }

  /** A slot is due by `t` exactly when it lies before the time `t + 1` at the true rate. */
  lemma DueBy(rps: nat, slot: nat, t: nat)
    requires 0 < rps <= SECOND
    ensures Due(rps, slot) <= t <==> slot * SECOND < (t + 1) * rps
  {
    QuotientAtLeast(slot * SECOND, rps, t + 1);
  }

  /** The most slots that can be due by `t`. */
  function DueCount(rps: nat, t: nat): int {
    ((t + 1) * rps + SECOND - 1) / SECOND
  }

  lemma SlotsDueBy(rps: nat, slot: nat, t: nat)
    requires 0 < rps <= SECOND
    ensures Due(rps, slot) <= t <==> slot < DueCount(rps, t)
  {
    DueBy(rps, slot, t);
    QuotientAtLeast((t + 1) * rps + SECOND - 1, SECOND, slot + 1);
  }

  lemma {:induction false} InjectionSize(s: set<nat>, log: seq<Grant>, n: nat)
    requires forall i :: i in s ==> i < |log| && log[i].slot < n
    requires forall i, j :: i in s && j in s && log[i].slot == log[j].slot ==> i == j
    ensures |s| <= n
    decreases n
  {
    if n == 0 {
      assert s == {};
    } else if i :| i in s && log[i].slot == n - 1 {
      InjectionSize(s - {i}, log, n - 1);
    } else {
      InjectionSize(s, log, n - 1);
    }
  }

  /** In every run, no more operations have started by `t` than slots are due by `t`. */
  lemma StartedIsBounded(rps: nat, log: seq<Grant>, t: nat)
    requires 0 < rps <= SECOND && IsRun(rps, log)
    ensures |Started(log, t)| <= DueCount(rps, t)
  {
    SlotsDueBy(rps, 0, t);
    forall i | i in Started(log, t)
      ensures log[i].slot < DueCount(rps, t)
    {
      RunOf(rps, log, i);
      SlotsDueBy(rps, log[i].slot, t);
    }
    forall i, j | i in Started(log, t) && j in Started(log, t) && log[i].slot == log[j].slot
      ensures i == j
    {
      if i < j { SlotsIncrease(rps, log, i, j); }
      if j < i { SlotsIncrease(rps, log, j, i); }
    }
    InjectionSize(Started(log, t), log, DueCount(rps, t));
  }

  /** The number of slots the rate allows by `t`: the whole ones, and the one at the start. */
  function Allowed(rps: nat, t: nat): int { t * rps / SECOND + 1 }

  ghost predicate NeverBursts(rps: nat)
    requires 0 < rps <= SECOND
  {
    forall log, t: nat :: IsRun(rps, log) ==> |Started(log, t)| <= Allowed(rps, t)
  }

  /** The pacer keeps to its rate in every run if and only if the rate divides a second. */
  lemma NeverBurstsIffDivides(rps: nat)
    requires 0 < rps <= SECOND
    ensures NeverBursts(rps) <==> SECOND % rps == 0
  {
    if SECOND % rps == 0 {
      forall log, t: nat | IsRun(rps, log)
        ensures |Started(log, t)| <= Allowed(rps, t)
      {
        StartedIsBounded(rps, log, t);
        AllowedIsDue(rps, t);
      }
    } else {
      Burst(rps);
    }
  }

  lemma AllowedIsDue(rps: nat, t: nat)
    requires 0 < rps <= SECOND && SECOND % rps == 0
    ensures DueCount(rps, t) <= Allowed(rps, t)
  {
    var interval := SECOND / rps;
    var slot := Allowed(rps, t);
    assert SECOND == interval * rps;
    QuotientAtLeast(t * rps, SECOND, slot);
    QuotientAtLeast(t * rps, SECOND, 0);
    assert slot * SECOND == slot * interval * rps;
    MulStrict(t, slot * interval, rps);
    MulOrder(t + 1, slot * interval, rps);
    SlotsDueBy(rps, slot, t);
    DueBy(rps, slot, t);
  }

  /** When the rate does not divide a second, slot 1 can start before its exact time. */
  lemma Burst(rps: nat)
    requires 0 < rps <= SECOND && SECOND % rps != 0
    ensures !NeverBursts(rps)
  {
    var t := Due(rps, 1);
    var g0, g1 := Grant(0, 0, 0, 0), Grant(0, 1, 0, t);
    assert CurrentSlot(rps, 0) == 0;
    Extend(rps, [], g0);
    Extend(rps, [g0], g1);
    var log := [g0] + [g1];
    assert [] + [g0] == [g0];
    assert log[0].started <= t && log[1].started <= t;
    assert Started(log, t) == {0, 1};
    assert SECOND == t * rps + SECOND % rps;
    QuotientIs(t * rps, SECOND, 0, t * rps);
    assert IsRun(rps, log) && |Started(log, t)| > Allowed(rps, t);
  }

  // ----- which slots are skipped -----

  /** The granted slot is never behind the true rate: a slot whose successor is due is not granted late. */
  lemma NeverReplays(rps: nat, next: nat, g: Grant)
    requires 0 < rps <= SECOND && Grants(rps, next, g) && g.now >= 0
    ensures g.slot >= g.now * rps / SECOND
  {
    var interval, due := Interval(rps), g.now * rps / SECOND;
    QuotientAtLeast(g.now * rps, SECOND, due);
    QuotientAtLeast(g.now * rps, SECOND, 0);
    MulOrder(0, due, SECOND);
    QuotientAtLeast(SECOND, rps, interval);
    // due * interval * rps <= due * SECOND <= now * rps
    MulOrder(interval * rps, SECOND, due);
    assert due * interval * rps == interval * rps * due;
    assert due * SECOND == SECOND * due;
    assert (g.now + 1) * rps == g.now * rps + rps;
    MulStrict(due * interval, g.now + 1, rps);
    QuotientAtLeast(g.now, interval, due);
  }

  /** A grant that skips anything skips only slots whose successor is already due. */
  ghost predicate SkipsOnlyMissed(rps: nat)
    requires 0 < rps <= SECOND
  {
    forall next: nat, g: Grant :: Grants(rps, next, g) && g.skipped > 0 ==> Due(rps, g.slot) <= g.now
  }

  /** Only missed slots are skipped, for all readings, if and only if the rate divides a second. */
  lemma SkipsOnlyMissedIffDivides(rps: nat)
    requires 0 < rps <= SECOND
    ensures SkipsOnlyMissed(rps) <==> SECOND % rps == 0
  {
    var interval := Interval(rps);
    assert SECOND == interval * rps + SECOND % rps;
    if SECOND % rps == 0 {
      forall next: nat, g: Grant | Grants(rps, next, g) && g.skipped > 0
        ensures Due(rps, g.slot) <= g.now
      {
        SkippedIsDue(rps, next, g);
      }
    } else {
      // after `rps` rounded-down intervals the current slot is `rps`, which is due only after a whole second
      var now := rps * interval;
      QuotientIs(now, interval, rps, 0);
      QuotientIs(rps * SECOND, rps, SECOND, 0);
      var g := Grant(now, rps, rps, SECOND);
      assert Grants(rps, 0, g) && Due(rps, g.slot) > g.now;
    }
  }

  lemma SkippedIsDue(rps: nat, next: nat, g: Grant)
    requires 0 < rps <= SECOND && SECOND % rps == 0 && Grants(rps, next, g) && g.skipped > 0
    ensures Due(rps, g.slot) <= g.now
  {
    var interval := Interval(rps);
    assert SECOND == interval * rps;
    if g.now < 0 { QuotientAtLeast(-g.now, interval, 0); }
    QuotientAtLeast(g.now, interval, g.slot);
    assert g.slot * SECOND == g.slot * interval * rps;
    QuotientIs(g.slot * SECOND, rps, g.slot * interval, 0);
  }

  // ----- the accounting -----

  /** What a worker reports: an offer of a granted slot (`slotNS` below zero without a rate), or a completion. */
  datatype Report = Offered(slotNS: int, lagNS: nat, skipped: nat) | Completed(ok: bool)

  ghost function Offers(reports: seq<Report>): nat {
    if reports == [] then 0
    else Offers(reports[..|reports| - 1]) + if reports[|reports| - 1].Offered? then 1 else 0
  }

  /** Slots skipped by the offers that have a slot. */
  ghost function Skips(reports: seq<Report>): nat {
    if reports == [] then 0
    else
      var r := reports[|reports| - 1];
      Skips(reports[..|reports| - 1]) + if r.Offered? && r.slotNS >= 0 then r.skipped else 0
  }

  ghost function Completions(reports: seq<Report>): nat {
    if reports == [] then 0
    else Completions(reports[..|reports| - 1]) + if reports[|reports| - 1].Completed? then 1 else 0
  }

  function Lag(r: Report): nat { if r.Offered? && r.slotNS >= 0 then r.lagNS else 0 }

  ghost function TotalLag(reports: seq<Report>): nat {
    if reports == [] then 0 else TotalLag(reports[..|reports| - 1]) + Lag(reports[|reports| - 1])
  }

  /** Paced offers that started more than a millisecond after their slot was due. */
  ghost function LateStarts(reports: seq<Report>): nat {
    if reports == [] then 0
    else LateStarts(reports[..|reports| - 1]) + if Lag(reports[|reports| - 1]) > MILLISECOND then 1 else 0
  }

  ghost function Failures(reports: seq<Report>): nat {
    if reports == [] then 0
    else Failures(reports[..|reports| - 1]) + if reports[|reports| - 1] == Completed(false) then 1 else 0
  }

  /** No offer lagged more than `most`, and one did that much unless it is zero. */
  ghost predicate IsGreatestLag(reports: seq<Report>, most: nat) {
    && (forall i :: 0 <= i < |reports| ==> Lag(reports[i]) <= most)
    && (most == 0 || exists i :: 0 <= i < |reports| && Lag(reports[i]) == most)
  }

  datatype Counts = Counts(scheduled: nat, executed: nat, skipped: nat, lagNS: nat, maxLagNS: nat, late: nat, errors: nat)

  /** What the counters say of the reports made so far. */
  ghost predicate Tallies(reports: seq<Report>, c: Counts) {
    && c.skipped == Skips(reports)
    && c.scheduled == Offers(reports) + c.skipped
    && c.executed == Completions(reports)
    && c.lagNS == TotalLag(reports)
    && c.late == LateStarts(reports)
    && c.errors == Failures(reports)
    && IsGreatestLag(reports, c.maxLagNS)
  }

  lemma GreatestLagSnoc(reports: seq<Report>, most: nat, r: Report)
    requires IsGreatestLag(reports, most)
    ensures IsGreatestLag(reports + [r], if Lag(r) > most then Lag(r) else most)
  {
    var all := reports + [r];
    assert all[|reports|] == r && forall i :: 0 <= i < |reports| ==> all[i] == reports[i];
    if most != 0 && Lag(r) <= most {
      var i :| 0 <= i < |reports| && Lag(reports[i]) == most;
      assert Lag(all[i]) == most;
    }
  }

  /** The counters after one more report. */
  function Counted(c: Counts, r: Report): Counts {
    match r
    case Completed(ok) => c.(executed := c.executed + 1, errors := c.errors + if ok then 0 else 1)
    case Offered(slotNS, lag, skips) =>
      if slotNS < 0 then c.(scheduled := c.scheduled + 1)
      else
        c.(scheduled := c.scheduled + (skips + 1), skipped := c.skipped + skips, lagNS := c.lagNS + lag,
           maxLagNS := if lag > c.maxLagNS then lag else c.maxLagNS, late := c.late + if lag > MILLISECOND then 1 else 0)
  }

  lemma TallyOne(reports: seq<Report>, c: Counts, r: Report)
    requires Tallies(reports, c)
    ensures Tallies(reports + [r], Counted(c, r))
  {
    assert (reports + [r])[..|reports|] == reports;
    GreatestLagSnoc(reports, c.maxLagNS, r);
  }

  lemma {:induction false} FewFailures(reports: seq<Report>)
    ensures Failures(reports) <= Completions(reports)
  {
    if reports != [] { FewFailures(reports[..|reports| - 1]); }
  }

  /** The counters of `pacingStats`; `Tallies` says what each of them counts. */
  class Stats {
    var scheduled: nat
    var executed: nat
    var skipped: nat
    var lagNS: nat
    var maxLagNS: nat
    var late: nat
    var errors: nat
    ghost var reports: seq<Report>

    function Now(): Counts
      reads this
    {
      Counts(scheduled, executed, skipped, lagNS, maxLagNS, late, errors)
    }

    ghost predicate Valid()
      reads this
    {
      Tallies(reports, Now())
    }

    constructor ()
      ensures Valid() && reports == []
    {
      scheduled, executed, skipped, lagNS, maxLagNS, late, errors := 0, 0, 0, 0, 0, 0, 0;
      reports := [];
    }

    method Offer(slotNS: int, lag: nat, skips: nat)
      requires Valid()
      modifies this
      ensures Valid() && reports == old(reports) + [Offered(slotNS, lag, skips)]
    {
      TallyOne(reports, Now(), Offered(slotNS, lag, skips));
      reports := reports + [Offered(slotNS, lag, skips)];
      if slotNS < 0 {
        scheduled := scheduled + 1;
        return;
      }
      scheduled := scheduled + (skips + 1);
      skipped := skipped + skips;
      lagNS := lagNS + lag;
      if lag > maxLagNS { maxLagNS := lag; }
      if lag > MILLISECOND { late := late + 1; }
    }

    method Complete(ok: bool)
      requires Valid()
      modifies this
      ensures Valid() && reports == old(reports) + [Completed(ok)]
    {
      TallyOne(reports, Now(), Completed(ok));
      reports := reports + [Completed(ok)];
      executed := executed + 1;
      if !ok { errors := errors + 1; }
    }

    /** The summarizer's test of the emitted counters (`_comparison_pacing_validity`) passes exactly when something was
        offered and every offer has completed.
    */
    method Accepted() returns (ok: bool)
      requires Valid()
      ensures ok <==> Offers(reports) > 0 && Completions(reports) == Offers(reports)
    {
      NothingScheduled(reports);
      FewFailures(reports);
      return !(scheduled <= 0 || scheduled != executed + skipped) && !(errors > executed);
    }
  }

  lemma {:induction false} NothingScheduled(reports: seq<Report>)
    ensures Offers(reports) == 0 ==> Skips(reports) == 0
  {
    if reports != [] { NothingScheduled(reports[..|reports| - 1]); }
  }

  /** The offers a worker makes of a pacer's grants. */
  ghost function OffersOf(rps: nat, log: seq<Grant>): seq<Report>
    requires 0 < rps <= SECOND
    requires forall i :: 0 <= i < |log| ==> log[i].started >= Due(rps, log[i].slot)
  {
    seq(|log|, i requires 0 <= i < |log| =>
      Offered(Due(rps, log[i].slot), log[i].started - Due(rps, log[i].slot), log[i].skipped))
  }

  /** When every grant is offered, the scheduled count is the pacer's next slot: nothing is lost or counted twice. */
  lemma {:induction false} ScheduledIsNextSlot(rps: nat, log: seq<Grant>)
    requires 0 < rps <= SECOND && IsRun(rps, log)
    requires forall i :: 0 <= i < |log| ==> log[i].started >= Due(rps, log[i].slot)
    ensures Offers(OffersOf(rps, log)) + Skips(OffersOf(rps, log)) == NextSlot(log)
  {
    if log != [] {
      var before := log[..|log| - 1];
      ScheduledIsNextSlot(rps, before);
      var all := OffersOf(rps, log);
      QuotientAtLeast(log[|log| - 1].slot * SECOND, rps, 0);
      assert all[..|all| - 1] == OffersOf(rps, before);
    }
  }
}
