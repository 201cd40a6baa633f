/** What the sampler's attribution adds up to over a whole run of samples. */
module PhaseTotals {
  import opened PhaseIntervals
  import opened PhaseSampler

  // ----- telescoping -----

  /** Time of the phase in windows for which no processor data was tracked. */
  ghost function Lost(h: seq<Interval>, ws: seq<Window>): nat {
    if ws == [] then 0
    else
      var w := ws[|ws| - 1];
      Lost(h, ws[..|ws| - 1]) + if w.to > w.from && !w.Counted() then Overlap(h, w.from, w.to) else 0
  }

  /** Time of the phase that the clock stepped back over, and that later windows cover again. */
  ghost function Recounted(h: seq<Interval>, ws: seq<Window>): nat {
    if ws == [] then 0
    else
      var w := ws[|ws| - 1];
      Recounted(h, ws[..|ws| - 1]) + if w.to < w.from then Overlap(h, w.to, w.from) else 0
  }

  ghost function Signed(h: seq<Interval>, a: int, b: int): int {
    if a <= b then Overlap(h, a, b)
    else
      var back: int := Overlap(h, b, a);
      -back
  }

  lemma OverlapOfEmptyWindow(h: seq<Interval>, a: int)
    requires forall i :: 0 <= i < |h| ==> h[i].start <= h[i].end
    ensures Overlap(h, a, a) == 0
  {
    OverlapSplits(h, a, a, a);
  }

  lemma SignedSplits(h: seq<Interval>, a: int, b: int, c: int)
    requires forall i :: 0 <= i < |h| ==> h[i].start <= h[i].end
    ensures Signed(h, a, b) + Signed(h, b, c) == Signed(h, a, c)
  {
    OverlapOfEmptyWindow(h, a);
    if a <= b <= c { OverlapSplits(h, a, b, c); }
    if a <= c <= b { OverlapSplits(h, a, c, b); }
    if b <= a <= c { OverlapSplits(h, b, a, c); }
    if b <= c <= a { OverlapSplits(h, b, c, a); }
    if c <= a <= b { OverlapSplits(h, c, a, b); }
    if c <= b <= a { OverlapSplits(h, c, b, a); }
  }

  /** The balance of any run: what is attributed and what is lost is the phase's time between the ends of the run, plus
      what was counted again after the clock stepped back.
  */
  lemma {:induction false} Balance(h: seq<Interval>, ws: seq<Window>, a: int, b: int)
    requires Ordered(h) && Linked(ws, a, b)
    ensures Attributed(h, ws) + Lost(h, ws) == Signed(h, a, b) + Recounted(h, ws)
    decreases |ws|
  {
    if ws == [] {
      OverlapOfEmptyWindow(h, a);
    } else {
      var before, w := ws[..|ws| - 1], ws[|ws| - 1];
      Balance(h, before, a, w.from);
      SignedSplits(h, a, w.from, w.to);
      OverlapOfEmptyWindow(h, w.from);
    }
  }

  lemma TelescopesIffBalanced(h: seq<Interval>, ws: seq<Window>, a: int, b: int)
    requires Ordered(h) && Linked(ws, a, b) && a <= b
    ensures Attributed(h, ws) == |Instants(h, a, b)| <==> Lost(h, ws) == Recounted(h, ws)
  {
    Balance(h, ws, a, b);
    OverlapIsMeasure(h, a, b);
  }

  // ----- exactly when -----

  /** Windows without processor data that hold instant `x`. */
  ghost function Uncounted(ws: seq<Window>, x: int): nat {
    if ws == [] then 0
    else
      var w := ws[|ws| - 1];
      Uncounted(ws[..|ws| - 1], x) + if !w.Counted() && w.from <= x < w.to then 1 else 0
  }

  /** Steps back of the clock over instant `x`. */
  ghost function SteppedBack(ws: seq<Window>, x: int): nat {
    if ws == [] then 0
    else
      var w := ws[|ws| - 1];
      SteppedBack(ws[..|ws| - 1], x) + if w.to <= x < w.from then 1 else 0
  }

  lemma {:induction false} OneInstant(ws: seq<Window>, x: int)
    ensures Lost([Interval(x, x + 1)], ws) == Uncounted(ws, x)
    ensures Recounted([Interval(x, x + 1)], ws) == SteppedBack(ws, x)
    decreases |ws|
  {
    if ws != [] {
      var w := ws[|ws| - 1];
      OneInstant(ws[..|ws| - 1], x);
      OneIntervalOverlap(Interval(x, x + 1), w.from, w.to);
      OneIntervalOverlap(Interval(x, x + 1), w.to, w.from);
    }
  }

  lemma {:induction false} LastInstant(ws: seq<Window>, i: Interval)
    requires i.start < i.end
    ensures Lost([i], ws) == Lost([i.(end := i.end - 1)], ws) + Lost([Interval(i.end - 1, i.end)], ws)
    ensures Recounted([i], ws) == Recounted([i.(end := i.end - 1)], ws) + Recounted([Interval(i.end - 1, i.end)], ws)
    decreases |ws|
  {
    if ws != [] {
      var w := ws[|ws| - 1];
      LastInstant(ws[..|ws| - 1], i);
      forall j | j in {i, i.(end := i.end - 1), Interval(i.end - 1, i.end)}
        ensures Overlap([j], w.from, w.to) == Clip(j, w.from, w.to)
        ensures Overlap([j], w.to, w.from) == Clip(j, w.to, w.from)
      {
        OneIntervalOverlap(j, w.from, w.to);
        OneIntervalOverlap(j, w.to, w.from);
      }
    }
  }

  lemma {:induction false} LastInterval(h: seq<Interval>, i: Interval, ws: seq<Window>)
    ensures Lost(h + [i], ws) == Lost(h, ws) + Lost([i], ws)
    ensures Recounted(h + [i], ws) == Recounted(h, ws) + Recounted([i], ws)
    decreases |ws|
  {
    if ws != [] {
      var w := ws[|ws| - 1];
      LastInterval(h, i, ws[..|ws| - 1]);
      OverlapSnoc(h, i, w.from, w.to);
      OverlapSnoc(h, i, w.to, w.from);
      OneIntervalOverlap(i, w.from, w.to);
      OneIntervalOverlap(i, w.to, w.from);
    }
  }

  lemma {:induction false} NoTime(ws: seq<Window>, h: seq<Interval>)
    requires forall i :: 0 <= i < |h| ==> h[i].start == h[i].end
    ensures Lost(h, ws) == 0 && Recounted(h, ws) == 0
    decreases |ws|
  {
    if ws != [] {
      NoTime(ws[..|ws| - 1], h);
      NoOverlap(h, ws[|ws| - 1].from, ws[|ws| - 1].to);
      NoOverlap(h, ws[|ws| - 1].to, ws[|ws| - 1].from);
    }
  }

  lemma {:induction false} NoOverlap(h: seq<Interval>, a: int, b: int)
    requires forall i :: 0 <= i < |h| ==> h[i].start == h[i].end
    ensures Overlap(h, a, b) == 0
    decreases |h|
  {
    if h != [] { NoOverlap(h[..|h| - 1], a, b); }
  }

  /** Every instant is in as many windows without processor data as the clock has stepped back over it. */
  ghost predicate Even(ws: seq<Window>) {
    forall x :: Uncounted(ws, x) == SteppedBack(ws, x)
  }

  lemma {:induction false} IntervalBalances(ws: seq<Window>, i: Interval)
    requires i.start <= i.end && Even(ws)
    ensures Lost([i], ws) == Recounted([i], ws)
    decreases i.end - i.start
  {
    if i.start == i.end {
      NoTime(ws, [i]);
    } else {
      IntervalBalances(ws, i.(end := i.end - 1));
      OneInstant(ws, i.end - 1);
      LastInstant(ws, i);
    }
  }

  lemma {:induction false} HistoryBalances(ws: seq<Window>, h: seq<Interval>)
    requires Ordered(h) && Even(ws)
    ensures Lost(h, ws) == Recounted(h, ws)
    decreases |h|
  {
    if h == [] {
      NoTime(ws, []);
    } else {
      PrefixIsOrdered(h, |h| - 1);
      HistoryBalances(ws, h[..|h| - 1]);
      IntervalBalances(ws, h[|h| - 1]);
      LastInterval(h[..|h| - 1], h[|h| - 1], ws);
      assert h == h[..|h| - 1] + [h[|h| - 1]];
    }
  }

  /** What is attributed is the number of instants of the phase between sampler start and last sample. */
  ghost predicate Telescopes(h: seq<Interval>, ws: seq<Window>, a: int, b: int) {
    Attributed(h, ws) == |Instants(h, a, b)|
  }

  lemma EvenIfTelescopes(ws: seq<Window>, a: int, b: int, x: int)
    requires Linked(ws, a, b) && a <= b && Telescopes([Interval(x, x + 1)], ws, a, b)
    ensures Uncounted(ws, x) == SteppedBack(ws, x)
  {
    TelescopesIffBalanced([Interval(x, x + 1)], ws, a, b);
    OneInstant(ws, x);
  }

  /** Attribution telescopes for every history a phase can have exactly when the windows are even. */
  lemma TelescopesIff(ws: seq<Window>, a: int, b: int)
    requires Linked(ws, a, b) && a <= b
    ensures (forall h :: Ordered(h) ==> Telescopes(h, ws, a, b)) <==> Even(ws)
  {
    if forall h :: Ordered(h) ==> Telescopes(h, ws, a, b) {
      forall x
        ensures Uncounted(ws, x) == SteppedBack(ws, x)
      {
        assert Ordered([Interval(x, x + 1)]);
        EvenIfTelescopes(ws, a, b, x);
      }
    }
    if Even(ws) {
      forall h | Ordered(h)
        ensures Telescopes(h, ws, a, b)
      {
        HistoryBalances(ws, h);
        TelescopesIffBalanced(h, ws, a, b);
      }
    }
  }

  /** The phase runs at no instant that the clock has stepped back over. */
  ghost predicate StillWhenBack(h: seq<Interval>, ws: seq<Window>) {
    forall i, x :: 0 <= i < |ws| && ws[i].to <= x < ws[i].from ==> !Inside(h, x)
  }

  lemma {:induction false} RecountedIff(h: seq<Interval>, ws: seq<Window>)
    requires Ordered(h)
    ensures Recounted(h, ws) == 0 <==> StillWhenBack(h, ws)
    decreases |ws|
  {
    if ws != [] {
      var before, w := ws[..|ws| - 1], ws[|ws| - 1];
      RecountedIff(h, before);
      OverlapIsMeasure(h, w.to, w.from);
      assert Overlap(h, w.to, w.from) == 0 <==> forall x :: w.to <= x < w.from ==> !Inside(h, x) by {
        if x :| w.to <= x < w.from && Inside(h, x) { assert x in Instants(h, w.to, w.from); }
        if forall x :: w.to <= x < w.from ==> !Inside(h, x) { assert Instants(h, w.to, w.from) == {}; }
      }
      assert StillWhenBack(h, ws) <==> StillWhenBack(h, before) && forall x :: w.to <= x < w.from ==> !Inside(h, x);
    }
  }

  lemma {:induction false} CountedLosesNothing(h: seq<Interval>, ws: seq<Window>)
    requires forall i :: 0 <= i < |ws| ==> ws[i].Counted()
    ensures Lost(h, ws) == 0
    decreases |ws|
  {
    if ws != [] { CountedLosesNothing(h, ws[..|ws| - 1]); }
  }

  /** With processor data at every sample, the attribution to one phase telescopes exactly when the phase runs at no
      instant that the clock has stepped back over.
  */
  lemma TelescopesUnlessBackIff(h: seq<Interval>, ws: seq<Window>, a: int, b: int)
    requires Ordered(h) && Linked(ws, a, b) && a <= b && forall i :: 0 <= i < |ws| ==> ws[i].Counted()
    ensures Telescopes(h, ws, a, b) <==> StillWhenBack(h, ws)
  {
    CountedLosesNothing(h, ws);
    RecountedIff(h, ws);
    TelescopesIffBalanced(h, ws, a, b);
  }

  /** In particular when the clock never steps back and processor data exists at every sample. */
  lemma {:induction false} TelescopesOnSteadyRuns(h: seq<Interval>, ws: seq<Window>, a: int, b: int)
    requires Ordered(h) && Linked(ws, a, b)
    requires forall i :: 0 <= i < |ws| ==> ws[i].Counted() && ws[i].from <= ws[i].to
    ensures a <= b && Telescopes(h, ws, a, b)
    decreases |ws|
  {
    SteadyGoesForward(ws, a, b);
    TelescopesUnlessBackIff(h, ws, a, b);
  }

  lemma {:induction false} SteadyGoesForward(ws: seq<Window>, a: int, b: int)
    requires Linked(ws, a, b) && forall i :: 0 <= i < |ws| ==> ws[i].from <= ws[i].to
    ensures a <= b
    decreases |ws|
  {
    if ws != [] {
      assert ws[|ws| - 1].from <= ws[|ws| - 1].to;
      SteadyGoesForward(ws[..|ws| - 1], a, ws[|ws| - 1].from);
    }
  }

  lemma RunSnoc(h: seq<Interval>, ws: seq<Window>, w: Window, a: int)
    requires Linked(ws, a, w.from)
    ensures Linked(ws + [w], a, w.to)
    ensures Attributed(h, ws + [w]) == Attributed(h, ws) + if Counts(w) then Overlap(h, w.from, w.to) else 0
  {
    assert (ws + [w])[..|ws|] == ws;
  }

  /** After the clock steps back, more time is attributed than the phase has run for. */
  lemma ClockStepsBack() returns (h: seq<Interval>, ws: seq<Window>)
    ensures Ordered(h) && Linked(ws, 0, 4) && (forall w :: w in ws ==> w.Counted())
    ensures Attributed(h, ws) > |Instants(h, 0, 4)|
  {
    h := [Interval(2, 8)];
    var cpu := map["vinyld" := Cpu(0.0, 0.0)];
    var ahead, back := Window(0, 10, cpu), Window(10, 4, cpu);
    assert "vinyld" in cpu;
    ws := [] + [ahead];
    RunSnoc(h, [], ahead, 0);
    RunSnoc(h, ws, back, 0);
    ws := ws + [back];
    OneIntervalOverlap(h[0], 0, 10);
    OneIntervalOverlap(h[0], 0, 4);
    OverlapIsMeasure(h, 0, 4);
  }

  lemma OneIntervalOverlap(i: Interval, a: int, b: int)
    ensures Overlap([i], a, b) == Clip(i, a, b)
  {
    OverlapSnoc([], i, a, b);
    assert [] + [i] == [i];
  }

  // ----- disjoint phases -----

  ghost predicate Disjoint(history: Phase -> seq<Interval>, phases: seq<Phase>) {
    forall i, j, x :: 0 <= i < j < |phases| && Inside(history(phases[i]), x) ==> !Inside(history(phases[j]), x)
  }

  ghost function TotalOverlap(history: Phase -> seq<Interval>, phases: seq<Phase>, a: int, b: int): nat {
    if phases == [] then 0
    else TotalOverlap(history, phases[..|phases| - 1], a, b) + Overlap(history(phases[|phases| - 1]), a, b)
  }

  ghost function AllInstants(history: Phase -> seq<Interval>, phases: seq<Phase>, a: int, b: int): set<int> {
    if phases == [] then {}
    else AllInstants(history, phases[..|phases| - 1], a, b) + Instants(history(phases[|phases| - 1]), a, b)
  }

  lemma {:induction false} InstantsOfAll(history: Phase -> seq<Interval>, phases: seq<Phase>, a: int, b: int)
    ensures forall x :: x in AllInstants(history, phases, a, b) ==>
              x in Range(a, b) && exists i :: 0 <= i < |phases| && Inside(history(phases[i]), x)
  {
    if phases != [] {
      var before := phases[..|phases| - 1];
      InstantsOfAll(history, before, a, b);
      forall x | x in AllInstants(history, before, a, b)
        ensures exists i :: 0 <= i < |phases| && Inside(history(phases[i]), x)
      {
        var i :| 0 <= i < |before| && Inside(history(before[i]), x);
        assert Inside(history(phases[i]), x);
      }
    }
  }

  lemma {:induction false} DisjointAddUp(history: Phase -> seq<Interval>, phases: seq<Phase>, a: int, b: int)
    requires Disjoint(history, phases) && forall p :: p in phases ==> Ordered(history(p))
    ensures |AllInstants(history, phases, a, b)| == TotalOverlap(history, phases, a, b)
  {
    if phases != [] {
      var before, last := phases[..|phases| - 1], phases[|phases| - 1];
      DisjointAddUp(history, before, a, b);
      OverlapIsMeasure(history(last), a, b);
      InstantsOfAll(history, before, a, b);
      forall x | x in AllInstants(history, before, a, b)
        ensures x !in Instants(history(last), a, b)
      {
        var i :| 0 <= i < |before| && Inside(history(before[i]), x);
        assert Inside(history(phases[i]), x);
      }
    }
  }

  lemma {:induction false} SubsetSize<T>(s: set<T>, t: set<T>)
    requires s <= t
    ensures |s| <= |t|
  {
    if s != {} {
      var x :| x in s;
      SubsetSize(s - {x}, t - {x});
    }
  }

  /** Phases that never run at the same time cover no more of a window than there is. */
  lemma DisjointFitWindow(history: Phase -> seq<Interval>, phases: seq<Phase>, a: int, b: int)
    requires a <= b && Disjoint(history, phases) && forall p :: p in phases ==> Ordered(history(p))
    ensures TotalOverlap(history, phases, a, b) <= b - a
  {
    DisjointAddUp(history, phases, a, b);
    InstantsOfAll(history, phases, a, b);
    SubsetSize(AllInstants(history, phases, a, b), Range(a, b));
  }

  // ----- ticks -----

  ghost function TotalTicks(history: Phase -> seq<Interval>, phases: seq<Phase>, ws: seq<Window>, l: Label): real {
    if phases == [] then 0.0
    else TotalTicks(history, phases[..|phases| - 1], ws, l) + AttributedTicks(history(phases[|phases| - 1]), ws, l)
  }

  ghost function SampledTicks(ws: seq<Window>, l: Label): real {
    if ws == [] then 0.0
    else SampledTicks(ws[..|ws| - 1], l) + if Counts(ws[|ws| - 1]) then ws[|ws| - 1].Ticks(l) else 0.0
  }

  ghost function WindowTicks(history: Phase -> seq<Interval>, phases: seq<Phase>, w: Window, l: Label): real {
    if phases == [] then 0.0
    else WindowTicks(history, phases[..|phases| - 1], w, l)
         + if Counts(w) then Portion(w.Ticks(l), w.to - w.from)(Overlap(history(phases[|phases| - 1]), w.from, w.to)) else 0.0
  }

  lemma {:induction false} TotalTicksSplit(history: Phase -> seq<Interval>, phases: seq<Phase>, ws: seq<Window>, l: Label)
    requires ws != []
    ensures TotalTicks(history, phases, ws, l)
            == TotalTicks(history, phases, ws[..|ws| - 1], l) + WindowTicks(history, phases, ws[|ws| - 1], l)
  {
    if phases != [] { TotalTicksSplit(history, phases[..|phases| - 1], ws, l); }
  }

  /** The part of `ticks` that belongs to `part` of `window`. */
  ghost function Prorated(ticks: real, part: nat, window: int): real
    requires window > 0
  {
    ticks * (part as real / window as real)
  }

  lemma PortionIsProrated(ticks: real, overlap: nat, window: int)
    requires 0 <= overlap <= window && window > 0
    ensures Portion(ticks, window)(overlap) == Prorated(ticks, overlap, window)
  {
    FractionAtMostOne(overlap, window);
  }

  lemma FractionAtMostOne(part: nat, window: int)
    requires part <= window && window > 0
    ensures 0.0 <= part as real / window as real <= 1.0
  {
    assert part as real <= window as real;
    assert window as real / window as real == 1.0;
  }

  lemma ProratedAdds(ticks: real, a: nat, b: nat, window: int)
    requires window > 0
    ensures Prorated(ticks, a, window) + Prorated(ticks, b, window) == Prorated(ticks, a + b, window)
  {
    var x, y := a as real / window as real, b as real / window as real;
    assert (a + b) as real == a as real + b as real;
    assert (a + b) as real / window as real == x + y;
    assert ticks * (x + y) == ticks * x + ticks * y;
  }

  lemma ProratedIsPart(ticks: real, part: nat, window: int)
    requires ticks >= 0.0 && part <= window && window > 0
    ensures Prorated(ticks, part, window) <= ticks
  {
    FractionAtMostOne(part, window);
    var f := part as real / window as real;
    assert ticks * (1.0 - f) == ticks - ticks * f && ticks * (1.0 - f) >= 0.0;
  }

  lemma {:induction false} WindowTicksAre(history: Phase -> seq<Interval>, phases: seq<Phase>, w: Window, l: Label)
    requires Counts(w) && TotalOverlap(history, phases, w.from, w.to) <= w.to - w.from
    ensures WindowTicks(history, phases, w, l)
            == Prorated(w.Ticks(l), TotalOverlap(history, phases, w.from, w.to), w.to - w.from)
  {
    if phases != [] {
      var before := phases[..|phases| - 1];
      var overlap := Overlap(history(phases[|phases| - 1]), w.from, w.to);
      WindowTicksAre(history, before, w, l);
      PortionIsProrated(w.Ticks(l), overlap, w.to - w.from);
      ProratedAdds(w.Ticks(l), TotalOverlap(history, before, w.from, w.to), overlap, w.to - w.from);
    }
  }

  /** Disjoint phases are never attributed more of a process's ticks than were sampled. */
  lemma {:induction false} DisjointShareTicks(history: Phase -> seq<Interval>, phases: seq<Phase>, ws: seq<Window>, l: Label)
    requires Disjoint(history, phases) && forall p :: p in phases ==> Ordered(history(p))
    requires forall i :: 0 <= i < |ws| ==> ws[i].Ticks(l) >= 0.0
    ensures TotalTicks(history, phases, ws, l) <= SampledTicks(ws, l)
    decreases |ws|
  {
    if ws == [] {
      NoTicks(history, phases, l);
    } else {
      var w := ws[|ws| - 1];
      DisjointShareTicks(history, phases, ws[..|ws| - 1], l);
      TotalTicksSplit(history, phases, ws, l);
      if Counts(w) {
        DisjointFitWindow(history, phases, w.from, w.to);
        WindowTicksAre(history, phases, w, l);
        ProratedIsPart(w.Ticks(l), TotalOverlap(history, phases, w.from, w.to), w.to - w.from);
      } else {
        UncountedTicks(history, phases, w, l);
      }
    }
  }

  /** Some phase runs at every instant of every window that counts. */
  ghost predicate Cover(history: Phase -> seq<Interval>, phases: seq<Phase>, ws: seq<Window>) {
    forall i, x :: 0 <= i < |ws| && Counts(ws[i]) && x in Range(ws[i].from, ws[i].to) ==> SomeRuns(history, phases, x)
  }

  ghost predicate SomeRuns(history: Phase -> seq<Interval>, phases: seq<Phase>, x: int) {
    exists j :: 0 <= j < |phases| && Inside(history(phases[j]), x)
  }

  lemma {:induction false} RunningInstants(history: Phase -> seq<Interval>, phases: seq<Phase>, a: int, b: int, x: int)
    requires x in Range(a, b) && SomeRuns(history, phases, x)
    ensures x in AllInstants(history, phases, a, b)
  {
    var j :| 0 <= j < |phases| && Inside(history(phases[j]), x);
    if j < |phases| - 1 {
      assert phases[..|phases| - 1][j] == phases[j];
      RunningInstants(history, phases[..|phases| - 1], a, b, x);
    }
  }

  lemma CoveredFillWindow(history: Phase -> seq<Interval>, phases: seq<Phase>, a: int, b: int)
    requires a <= b && Disjoint(history, phases) && forall p :: p in phases ==> Ordered(history(p))
    requires forall x :: x in Range(a, b) ==> SomeRuns(history, phases, x)
    ensures TotalOverlap(history, phases, a, b) == b - a
  {
    DisjointAddUp(history, phases, a, b);
    InstantsOfAll(history, phases, a, b);
    forall x | x in Range(a, b)
      ensures x in AllInstants(history, phases, a, b)
    {
      RunningInstants(history, phases, a, b, x);
    }
    assert AllInstants(history, phases, a, b) == Range(a, b);
  }

  lemma ProratedWhole(ticks: real, window: int)
    requires window > 0
    ensures Prorated(ticks, window, window) == ticks
  {
    assert window as real / window as real == 1.0;
  }

  /** Conservation: disjoint phases that cover every window that counts are together attributed exactly the ticks sampled.
  */
  lemma {:induction false} CoveringShareAllTicks(history: Phase -> seq<Interval>, phases: seq<Phase>, ws: seq<Window>, l: Label)
    requires Disjoint(history, phases) && forall p :: p in phases ==> Ordered(history(p))
    requires Cover(history, phases, ws)
    ensures TotalTicks(history, phases, ws, l) == SampledTicks(ws, l)
    decreases |ws|
  {
    if ws == [] {
      NoTicks(history, phases, l);
    } else {
      var before, w := ws[..|ws| - 1], ws[|ws| - 1];
      assert forall i :: 0 <= i < |before| ==> before[i] == ws[i];
      CoveringShareAllTicks(history, phases, before, l);
      TotalTicksSplit(history, phases, ws, l);
      if Counts(w) {
        CoveredFillWindow(history, phases, w.from, w.to);
        WindowTicksAre(history, phases, w, l);
        ProratedWhole(w.Ticks(l), w.to - w.from);
      } else {
        UncountedTicks(history, phases, w, l);
      }
    }
  }

  lemma {:induction false} NoTicks(history: Phase -> seq<Interval>, phases: seq<Phase>, l: Label)
    ensures TotalTicks(history, phases, [], l) == 0.0
  {
    if phases != [] { NoTicks(history, phases[..|phases| - 1], l); }
  }

  lemma {:induction false} UncountedTicks(history: Phase -> seq<Interval>, phases: seq<Phase>, w: Window, l: Label)
    requires !Counts(w)
    ensures WindowTicks(history, phases, w, l) == 0.0
  {
    if phases != [] { UncountedTicks(history, phases[..|phases| - 1], w, l); }
  }
}
