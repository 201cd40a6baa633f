/** The sampler's phase attribution: each sample adds, to every phase, the part of the window since the previous sample
    that the phase covers, and the same share of the processor ticks sampled in that window for each tracked process.
*/
module PhaseSampler {
  import opened PhaseIntervals

  type Phase = string

  /** A tracked process's name. */
  type Label = string

  datatype Marker = Marker(phase: Phase, starts: bool, stamp: int)

  /** What one sample tracked of one process. */
  datatype Cpu = Cpu(ticks: real, percent: real)

  /** What one sample covered, and what it tracked. */
  datatype Window = Window(from: int, to: int, cpu: map<Label, Cpu>) {
    predicate Counted() { cpu != map[] }

    function Ticks(l: Label): real { if l in cpu then cpu[l].ticks else 0.0 }
  }

  // ----- markers -----

  function LearnAll(k: Known, markers: seq<Marker>, p: Phase): Known {
    if markers == [] then k
    else
      var before := LearnAll(k, markers[..|markers| - 1], p);
      var m := markers[|markers| - 1];
      if m.phase == p then Learn(before, m.starts, m.stamp) else before
  }

  /** The markers of `p` among `markers` are number `n` up to `n'` of the phase's history, in order. */
  ghost predicate Delivers(markers: seq<Marker>, p: Phase, h: seq<Interval>, n: nat, n': nat) {
    if markers == [] then n == n'
    else
      var m := markers[|markers| - 1];
      if m.phase == p then
        && n < n' <= 2 * |h|
        && m.starts == ((n' - 1) % 2 == 0) && m.stamp == Stamp(h, n' - 1)
        && Delivers(markers[..|markers| - 1], p, h, n, n' - 1)
      else Delivers(markers[..|markers| - 1], p, h, n, n')
  }

  lemma {:induction false} LearnsDelivered(h: seq<Interval>, markers: seq<Marker>, p: Phase, n: nat, n': nat)
    requires Ordered(h) && n <= 2 * |h| && Delivers(markers, p, h, n, n')
    ensures n <= n' <= 2 * |h| && LearnAll(KnownAt(h, n), markers, p) == KnownAt(h, n')
    decreases |markers|
  {
    if markers != [] {
      var before, m := markers[..|markers| - 1], markers[|markers| - 1];
      if m.phase == p {
        LearnsDelivered(h, before, p, n, n' - 1);
        LearnsNext(h, n' - 1);
      } else {
        LearnsDelivered(h, before, p, n, n');
      }
    }
  }

  // ----- what is attributed -----

  predicate Counts(w: Window) { w.Counted() && w.to > w.from }

  /** A phase's share of a window, at most all of it. */
  function Share(overlap: nat, window: int): real
    requires window > 0
  {
    var fraction := overlap as real / window as real;
    if fraction < 1.0 then fraction else 1.0
  }

  /** The part of a window's ticks that a phase covering `overlap` of it gets. */
  function Portion(ticks: real, window: int): (f: nat -> real)
    requires window > 0
    ensures f(0) == 0.0
  {
    (overlap: nat) => ticks * Share(overlap, window)
  }

  ghost function Attributed(h: seq<Interval>, ws: seq<Window>): nat {
    if ws == [] then 0
    else
      var w := ws[|ws| - 1];
      Attributed(h, ws[..|ws| - 1]) + if Counts(w) then Overlap(h, w.from, w.to) else 0
  }

  ghost function AttributedTicks(h: seq<Interval>, ws: seq<Window>, l: Label): real {
    if ws == [] then 0.0
    else
      var w := ws[|ws| - 1];
      AttributedTicks(h, ws[..|ws| - 1], l)
      + if Counts(w) then Portion(w.Ticks(l), w.to - w.from)(Overlap(h, w.from, w.to)) else 0.0
  }

  function Larger(x: real, y: real): real { if x < y then y else x }

  /** The greatest percentage of any window in which the phase ran. */
  ghost function PeakPercent(h: seq<Interval>, ws: seq<Window>, l: Label): real {
    if ws == [] then 0.0
    else
      var w := ws[|ws| - 1];
      var before := PeakPercent(h, ws[..|ws| - 1], l);
      if w.to > w.from && Overlap(h, w.from, w.to) > 0 && l in w.cpu then Larger(before, w.cpu[l].percent) else before
  }

  /** The phase ran in a window that tracked the label. */
  ghost predicate RanIn(h: seq<Interval>, w: Window, l: Label) {
    w.to > w.from && Overlap(h, w.from, w.to) > 0 && l in w.cpu
  }

  /** No window in which the phase ran had a greater percentage, and one had this one unless all are below zero. */
  lemma {:induction false} PeakIsGreatest(h: seq<Interval>, ws: seq<Window>, l: Label)
    ensures PeakPercent(h, ws, l) >= 0.0
    ensures forall k :: 0 <= k < |ws| && RanIn(h, ws[k], l) ==> ws[k].cpu[l].percent <= PeakPercent(h, ws, l)
    ensures PeakPercent(h, ws, l) > 0.0 ==>
              exists k :: 0 <= k < |ws| && RanIn(h, ws[k], l) && ws[k].cpu[l].percent == PeakPercent(h, ws, l)
    decreases |ws|
  {
    if ws != [] {
      var before, last := ws[..|ws| - 1], |ws| - 1;
      PeakIsGreatest(h, before, l);
      assert forall k :: 0 <= k < last ==> ws[k] == before[k];
      if PeakPercent(h, ws, l) > 0.0 && PeakPercent(h, ws, l) != PeakPercent(h, before, l) {
        assert RanIn(h, ws[last], l) && ws[last].cpu[l].percent == PeakPercent(h, ws, l);
      } else if PeakPercent(h, ws, l) > 0.0 {
        var k :| 0 <= k < |before| && RanIn(h, before[k], l) && before[k].cpu[l].percent == PeakPercent(h, before, l);
        assert RanIn(h, ws[k], l) && ws[k].cpu[l].percent == PeakPercent(h, ws, l);
      }
    }
  }

  /** Windows that follow each other from `from` to `to`. */
  ghost predicate Linked(ws: seq<Window>, from: int, to: int) {
    if ws == [] then from == to
    else ws[|ws| - 1].to == to && Linked(ws[..|ws| - 1], from, ws[|ws| - 1].from)
  }

  /** What the two marker dictionaries say of a phase. */
  function KnownIn(intervals: map<Phase, seq<Interval>>, starts: map<Phase, int>, p: Phase): Known {
    Known(if p in intervals then intervals[p] else [], if p in starts then Since(starts[p]) else Closed)
  }

  /** What has been attributed to one phase. */
  datatype Accumulator = Accumulator(wall: nat, ticks: map<Label, real>, percentMax: map<Label, real>) {
    function Ticks(l: Label): real { if l in ticks then ticks[l] else 0.0 }

    function Percent(l: Label): real { if l in percentMax then percentMax[l] else 0.0 }
  }

  function AccumulatorIn(phases: map<Phase, Accumulator>, p: Phase): Accumulator {
    if p in phases then phases[p] else Accumulator(0, map[], map[])
  }

  /** One label's numbers after a window, of which the phase has a share. */
  predicate LabelAdded(a: Accumulator, a': Accumulator, cpu: map<Label, Cpu>, share: real -> real, l: Label) {
    if l in cpu then
      a'.Ticks(l) == a.Ticks(l) + share(cpu[l].ticks) && a'.Percent(l) == Larger(a.Percent(l), cpu[l].percent)
    else a'.Ticks(l) == a.Ticks(l) && a'.Percent(l) == a.Percent(l)
  }

  /** A phase's accumulator after a window that the phase covered for `overlap`; `fraction` turns that into its share. */
  ghost predicate Added(a: Accumulator, a': Accumulator, cpu: map<Label, Cpu>, overlap: nat, fraction: nat -> (real -> real)) {
    if overlap == 0 then a' == a
    else a'.wall == a.wall + overlap && forall l :: LabelAdded(a, a', cpu, fraction(overlap), l)
  }

  ghost predicate AllAdded(before: map<Phase, Accumulator>, after: map<Phase, Accumulator>, cpu: map<Label, Cpu>,
                           gain: Phase -> nat, fraction: nat -> (real -> real))
  {
    forall p :: Added(AccumulatorIn(before, p), AccumulatorIn(after, p), cpu, gain(p), fraction)
  }

  /** The accumulator holds what the history covers of the windows. */
  ghost predicate TalliesIn(a: Accumulator, h: seq<Interval>, ws: seq<Window>) {
    && a.wall == Attributed(h, ws)
    && forall l :: a.Ticks(l) == AttributedTicks(h, ws, l) && a.Percent(l) == PeakPercent(h, ws, l)
  }

  /** What a phase gets of an amount sampled in a window, by the time it covers. */
  function Fraction(window: int): nat -> (real -> real)
    requires window > 0
  {
    (overlap: nat) => (amount: real) => amount * Share(overlap, window)
  }

  lemma TallyLabel(h: seq<Interval>, ws: seq<Window>, w: Window, a: Accumulator, a': Accumulator, l: Label)
    requires a.Ticks(l) == AttributedTicks(h, ws, l) && a.Percent(l) == PeakPercent(h, ws, l)
    requires !Counts(w) ==> a' == a
    requires Counts(w) ==> Added(a, a', w.cpu, Overlap(h, w.from, w.to), Fraction(w.to - w.from))
    ensures a'.Ticks(l) == AttributedTicks(h, ws + [w], l) && a'.Percent(l) == PeakPercent(h, ws + [w], l)
  {
    assert (ws + [w])[..|ws|] == ws;
    if Counts(w) && Overlap(h, w.from, w.to) > 0 {
      assert LabelAdded(a, a', w.cpu, Fraction(w.to - w.from)(Overlap(h, w.from, w.to)), l);
    }
  }

  lemma TallyOne(h: seq<Interval>, ws: seq<Window>, w: Window, a: Accumulator, a': Accumulator)
    requires TalliesIn(a, h, ws)
    requires !Counts(w) ==> a' == a
    requires Counts(w) ==> Added(a, a', w.cpu, Overlap(h, w.from, w.to), Fraction(w.to - w.from))
    ensures TalliesIn(a', h, ws + [w])
  {
    assert (ws + [w])[..|ws|] == ws;
    forall l
      ensures a'.Ticks(l) == AttributedTicks(h, ws + [w], l) && a'.Percent(l) == PeakPercent(h, ws + [w], l)
    {
      TallyLabel(h, ws, w, a, a', l);
    }
  }

  lemma TallyAll(history: Phase -> seq<Interval>, ws: seq<Window>, w: Window,
                 before: map<Phase, Accumulator>, after: map<Phase, Accumulator>, gain: Phase -> nat)
    requires forall p :: TalliesIn(AccumulatorIn(before, p), history(p), ws)
    requires forall p :: gain(p) == Overlap(history(p), w.from, w.to)
    requires !Counts(w) ==> after == before
    requires Counts(w) ==> AllAdded(before, after, w.cpu, gain, Fraction(w.to - w.from))
    ensures forall p :: TalliesIn(AccumulatorIn(after, p), history(p), ws + [w])
  {
    forall p
      ensures TalliesIn(AccumulatorIn(after, p), history(p), ws + [w])
    {
      assert gain(p) == Overlap(history(p), w.from, w.to);
      TallyOne(history(p), ws, w, AccumulatorIn(before, p), AccumulatorIn(after, p));
    }
  }

  class Sampler {
    var intervals: map<Phase, seq<Interval>>
    var starts: map<Phase, int>
    var previous: int
    var phaseCpu: map<Phase, Accumulator>
    const began: int
    /** The whole history of each phase, how many of its markers have been read, and the windows so far. */
    ghost const history: Phase -> seq<Interval>
    ghost var read: Phase -> nat
    ghost var windows: seq<Window>

    function KnownOf(p: Phase): Known
      reads `intervals, `starts
    {
      KnownIn(intervals, starts, p)
    }

    ghost predicate Follows(p: Phase)
      reads `intervals, `starts, `read
    {
      Ordered(history(p)) && read(p) <= 2 * |history(p)| && KnownOf(p) == KnownAt(history(p), read(p))
    }

    ghost predicate Tallies(p: Phase)
      reads `phaseCpu, `windows
    {
      TalliesIn(AccumulatorIn(phaseCpu, p), history(p), windows)
    }

    ghost predicate Valid()
      reads this
    {
      Linked(windows, began, previous) && forall p :: Follows(p) && Tallies(p)
    }

    constructor (start: int, ghost phases: Phase -> seq<Interval>)
      requires forall p :: Ordered(phases(p))
      ensures Valid() && began == start && history == phases && windows == [] && forall p :: read(p) == 0
    {
      intervals, starts, phaseCpu := map[], map[], map[];
      began, previous, history := start, start, phases;
      read, windows := _ => 0, [];
    }

    /** `_read_phase_markers`, once the new marker files are parsed and sorted. */
    method ReadMarkers(markers: seq<Marker>)
      modifies `intervals, `starts
      ensures forall p :: KnownOf(p) == LearnAll(old(KnownOf(p)), markers, p)
    {
      for i := 0 to |markers|
        invariant forall p :: KnownOf(p) == LearnAll(old(KnownOf(p)), markers[..i], p)
      {
        var m := markers[i];
        assert markers[..i + 1][..i] == markers[..i];
        if m.starts {
          starts := starts[m.phase := m.stamp];
        } else {
          if m.phase in starts && m.stamp >= starts[m.phase] {
            var sofar := if m.phase in intervals then intervals[m.phase] else [];
            intervals := intervals[m.phase := sofar + [Interval(starts[m.phase], m.stamp)]];
          }
          starts := starts - {m.phase};
        }
      }
      assert markers[..|markers|] == markers;
    }

    /** The overlap loop of `_record_phase_cpu_locked` for one phase. */
    method MeasureOverlap(p: Phase, to: int) returns (overlap: nat)
      ensures overlap == KnownOverlap(KnownOf(p), previous, to)
    {
      overlap := 0;
      var list := if p in intervals then intervals[p] else [];
      for i := 0 to |list|
        invariant overlap == Overlap(list[..i], previous, to)
      {
        assert list[..i + 1] == list[..i] + [list[i]];
        OverlapSnoc(list[..i], list[i], previous, to);
        overlap := overlap + Max(0, Min(list[i].end, to) - Max(list[i].start, previous));
      }
      assert list[..|list|] == list;
      if p in starts { overlap := overlap + Max(0, to - Max(starts[p], previous)); }
    }

    /** The loop of `_record_phase_cpu_locked` over the phases that have markers. */
    method AddShares(to: int, cpu: map<Label, Cpu>, fraction: nat -> (real -> real), ghost gain: Phase -> nat)
      requires forall p :: gain(p) == KnownOverlap(KnownOf(p), previous, to)
      modifies `phaseCpu
      ensures AllAdded(old(phaseCpu), phaseCpu, cpu, gain, fraction)
    {
      var todo := intervals.Keys + starts.Keys;
      ghost var before := phaseCpu;
      while todo != {}
        invariant todo <= intervals.Keys + starts.Keys
        invariant forall p :: Added(AccumulatorIn(before, p), AccumulatorIn(phaseCpu, p), cpu,
                                    if p in todo then 0 else gain(p), fraction)
        decreases |todo|
      {
        var p :| p in todo;
        todo := todo - {p};
        var overlap := MeasureOverlap(p, to);
        phaseCpu := AddShare(phaseCpu, p, cpu, overlap, fraction);
      }
    }

    static method AddShare(phases: map<Phase, Accumulator>, p: Phase, cpu: map<Label, Cpu>, overlap: nat,
                           fraction: nat -> (real -> real))
      returns (phases': map<Phase, Accumulator>)
      ensures Added(AccumulatorIn(phases, p), AccumulatorIn(phases', p), cpu, overlap, fraction)
      ensures forall q :: q != p ==> AccumulatorIn(phases', q) == AccumulatorIn(phases, q)
    {
      phases' := phases;
      if overlap > 0 {
        var a := AddSample(AccumulatorIn(phases, p), cpu, overlap, fraction(overlap));
        phases' := phases[p := a];
      }
    }

    /** What one window adds to a phase that covers `overlap` of it. */
    static method AddSample(a: Accumulator, cpu: map<Label, Cpu>, overlap: nat, share: real -> real) returns (a': Accumulator)
      ensures a'.wall == a.wall + overlap && forall l :: LabelAdded(a, a', cpu, share, l)
    {
      a' := a.(wall := a.wall + overlap);
      var labels := cpu.Keys;
      while labels != {}
        invariant labels <= cpu.Keys && a'.wall == a.wall + overlap
        invariant forall l :: l !in labels ==> LabelAdded(a, a', cpu, share, l)
        invariant forall l :: l in labels ==> a'.Ticks(l) == a.Ticks(l) && a'.Percent(l) == a.Percent(l)
        decreases |labels|
      {
        var l :| l in labels;
        labels := labels - {l};
        a' := AddLabel(a', l, cpu[l], share);
      }
    }

    static method AddLabel(a: Accumulator, l: Label, c: Cpu, share: real -> real) returns (a': Accumulator)
      ensures a'.wall == a.wall && forall k :: k != l ==> a'.Ticks(k) == a.Ticks(k) && a'.Percent(k) == a.Percent(k)
      ensures a'.Ticks(l) == a.Ticks(l) + share(c.ticks) && a'.Percent(l) == Larger(a.Percent(l), c.percent)
    {
      a' := a.(ticks := a.ticks[l := a.Ticks(l) + share(c.ticks)],
               percentMax := a.percentMax[l := Larger(a.Percent(l), c.percent)]);
    }

    /** `_record_phase_cpu_locked`; `w` is the window it records. */
    method RecordCpu(to: int, cpu: map<Label, Cpu>, ghost gain: Phase -> nat, ghost w: Window)
      requires w == Window(previous, to, cpu)
      requires forall p :: gain(p) == KnownOverlap(KnownOf(p), previous, to)
      modifies `phaseCpu
      ensures !Counts(w) ==> phaseCpu == old(phaseCpu)
      ensures Counts(w) ==> AllAdded(old(phaseCpu), phaseCpu, w.cpu, gain, Fraction(w.to - w.from))
    {
      if to <= previous || cpu == map[] { return; }
      AddShares(to, cpu, Fraction(to - previous), gain);
    }

    /** The markers that are new at a sample: those of `p` up to number `n`, which include every one stamped up to it. */
    ghost predicate Visible(p: Phase, markers: seq<Marker>, n: nat, to: int)
      reads `read
    {
      Delivers(markers, p, history(p), read(p), n) && SeenUpTo(history(p), n, to)
    }

    /** Reads the markers of a sample, after which the overlap of its window with each phase is known. */
    method ReadVisible(to: int, markers: seq<Marker>, ghost next: Phase -> nat)
      requires forall p :: Follows(p) && Visible(p, markers, next(p), to)
      modifies `intervals, `starts, `read
      ensures read == next && forall p :: Follows(p)
      ensures forall p :: KnownOverlap(KnownOf(p), previous, to) == Overlap(history(p), previous, to)
    {
      forall p
        ensures Ordered(history(p)) && next(p) <= 2 * |history(p)|
        ensures LearnAll(KnownOf(p), markers, p) == KnownAt(history(p), next(p))
        ensures KnownOverlap(KnownAt(history(p), next(p)), previous, to) == Overlap(history(p), previous, to)
      {
        assert Follows(p) && Visible(p, markers, next(p), to);
        LearnsDelivered(history(p), markers, p, read(p), next(p));
        KnownIsEnough(history(p), next(p), previous, to);
      }
      ReadMarkers(markers);
      read := next;
    }

    /** Records a window whose overlaps are known. */
    method RecordWindow(to: int, cpu: map<Label, Cpu>)
      requires forall p :: Tallies(p)
      requires forall p :: KnownOverlap(KnownOf(p), previous, to) == Overlap(history(p), previous, to)
      modifies `phaseCpu, `windows
      ensures windows == old(windows) + [Window(previous, to, cpu)] && forall p :: Tallies(p)
    {
      ghost var w := Window(previous, to, cpu);
      ghost var before, ws := phaseCpu, windows;
      assert forall p :: Tallies(p) ==> TalliesIn(AccumulatorIn(before, p), history(p), ws);
      ghost var phases, from := history, previous;
      ghost var gain := p => Overlap(phases(p), from, to);
      RecordCpu(to, cpu, gain, w);
      TallyAll(phases, ws, w, before, phaseCpu, gain);
      windows := ws + [w];
    }

    /** One sample.  `next` is how many markers of each phase have been read after it: every marker stamped up to the
        sample is visible, so nothing stamped earlier is still unread.
    */
    method Sample(to: int, markers: seq<Marker>, cpu: map<Label, Cpu>, ghost next: Phase -> nat)
      requires Valid() && forall p :: Visible(p, markers, next(p), to)
      modifies this
      ensures Valid() && previous == to && read == next
      ensures windows == old(windows) + [Window(old(previous), to, cpu)]
    {
      ReadVisible(to, markers, next);
      RecordWindow(to, cpu);
      assert windows[..|windows| - 1] == old(windows);
      previous := to;
    }
  }
}
