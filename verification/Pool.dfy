/** Pooled resources: how many units a set of bookings holds at once
    (backend/app/services/availability.py, the sweep from _levels to full_intervals). */
module Pool {
  import opened Sequences
  import opened Time
  import opened Tables

  /** Units held over a span. */
  datatype Load = Load(span: Span, units: int)

  /** The running total from an instant at which it may change. */
  datatype Level = Level(at: int, total: int)

  // ---------------------------------------------------------------- the pointwise meaning

  /** The units held at one instant: a plain sum over the loads that cover it. */
  function Covering(loads: seq<Load>, t: int): int {
    if loads == [] then 0
    else
      var last := loads[|loads| - 1];
      Covering(loads[..|loads| - 1], t) + if Covers(last.span, t) then last.units else 0
  }

  predicate Ordered(loads: seq<Load>) {
    forall l :: l in loads ==> l.span.lo <= l.span.hi
  }

  predicate NonNegative(loads: seq<Load>) {
    forall l :: l in loads ==> 0 <= l.units
  }

  /** The peak by definition: the largest sum at an instant some load starts, and 0 with none. */
  function PeakOf(loads: seq<Load>): int {
    PeakAmong(loads, loads)
  }

  function PeakAmong(loads: seq<Load>, starts: seq<Load>): int {
    if starts == [] then 0
    else
      var rest := PeakAmong(loads, starts[..|starts| - 1]);
      var here := Covering(loads, starts[|starts| - 1].span.lo);
      if rest < here then here else rest
  }

  lemma {:induction false} PeakAmongBounds(loads: seq<Load>, starts: seq<Load>)
    ensures 0 <= PeakAmong(loads, starts)
    ensures forall l :: l in starts ==> Covering(loads, l.span.lo) <= PeakAmong(loads, starts)
    ensures PeakAmong(loads, starts) == 0
         || exists l :: l in starts && Covering(loads, l.span.lo) == PeakAmong(loads, starts)
  {
    if starts != [] {
      PeakAmongBounds(loads, starts[..|starts| - 1]);
      assert forall l :: l in starts ==> l in starts[..|starts| - 1] || l == starts[|starts| - 1];
      assert starts[|starts| - 1] in starts;
    }
  }

  lemma {:induction false} CoveringMonotone(loads: seq<Load>, t: int, t': int)
    requires NonNegative(loads)
    requires forall l :: l in loads && Covers(l.span, t) ==> Covers(l.span, t')
    ensures 0 <= Covering(loads, t) <= Covering(loads, t')
  {
    if loads != [] {
      assert loads[|loads| - 1] in loads;
      CoveringMonotone(loads[..|loads| - 1], t, t');
    }
  }

  lemma {:induction false} CoveringNothing(loads: seq<Load>, t: int)
    requires forall l :: l in loads ==> !Covers(l.span, t)
    ensures Covering(loads, t) == 0
  {
    if loads != [] {
      assert loads[|loads| - 1] in loads;
      CoveringNothing(loads[..|loads| - 1], t);
    }
  }

  /** Among the loads covering t, one that starts last. */
  lemma {:induction false} LatestStart(loads: seq<Load>, t: int) returns (late: Load)
    requires exists l :: l in loads && Covers(l.span, t)
    ensures late in loads && Covers(late.span, t)
    ensures forall l :: l in loads && Covers(l.span, t) ==> l.span.lo <= late.span.lo
  {
    var front, last := loads[..|loads| - 1], loads[|loads| - 1];
    assert forall l :: l in loads ==> l in front || l == last;
    if exists l :: l in front && Covers(l.span, t) {
      late := LatestStart(front, t);
      if Covers(last.span, t) && late.span.lo < last.span.lo {
        late := last;
      }
    } else {
      late := last;
    }
  }

  /** An instant before every load. */
  lemma {:induction false} BeforeAll(loads: seq<Load>) returns (t: int)
    ensures forall l :: l in loads ==> t < l.span.lo
  {
    if loads == [] {
      t := 0;
    } else {
      t := BeforeAll(loads[..|loads| - 1]);
      var last := loads[|loads| - 1];
      t := if t < last.span.lo then t else last.span.lo - 1;
      assert forall l :: l in loads ==> l in loads[..|loads| - 1] || l == last;
    }
  }

  /** PeakOf is the maximum over every instant of the line: a bound that is reached. */
  lemma PeakIsMaximum(loads: seq<Load>)
    requires NonNegative(loads)
    ensures forall t :: Covering(loads, t) <= PeakOf(loads)
    ensures exists t :: Covering(loads, t) == PeakOf(loads)
  {
    PeakAmongBounds(loads, loads);
    forall t ensures Covering(loads, t) <= PeakOf(loads) {
      if exists l :: l in loads && Covers(l.span, t) {
        var late := LatestStart(loads, t);
        CoveringMonotone(loads, t, late.span.lo);
      } else {
        CoveringNothing(loads, t);
      }
    }
    if PeakOf(loads) == 0 {
      var t := BeforeAll(loads);
      CoveringNothing(loads, t);
      assert Covering(loads, t) == PeakOf(loads);
    }
  }

  // ---------------------------------------------------------------- the sweep

  predicate IsEdge(loads: seq<Load>, x: int) {
    exists l :: l in loads && (l.span.lo == x || l.span.hi == x)
  }

  /** The change in the total at one instant. */
  function DeltaAt(loads: seq<Load>, x: int): int {
    if loads == [] then 0
    else
      var last := loads[|loads| - 1];
      DeltaAt(loads[..|loads| - 1], x)
      + (if last.span.lo == x then last.units else 0)
      - (if last.span.hi == x then last.units else 0)
  }

  /** From one instant to a later one with no edge between them, the sum moves by the change there. */
  lemma {:induction false} CoveringStep(loads: seq<Load>, a: int, b: int)
    requires Ordered(loads) && a < b
    requires forall x :: a < x < b ==> !IsEdge(loads, x)
    ensures Covering(loads, b) == Covering(loads, a) + DeltaAt(loads, b)
  {
    if loads != [] {
      var front, last := loads[..|loads| - 1], loads[|loads| - 1];
      assert last in loads;
      forall x | a < x < b ensures !IsEdge(front, x) {
        assert !IsEdge(loads, x);
      }
      assert !IsEdge(loads, last.span.lo) || last.span.lo <= a || b <= last.span.lo;
      assert IsEdge(loads, last.span.lo) && IsEdge(loads, last.span.hi);
      CoveringStep(front, a, b);
    }
  }

  /** The first loop of the sweep: the change at every edge, and the edges as first met. */
  method Deltas(loads: seq<Load>) returns (deltas: map<int, int>, keys: seq<int>)
    ensures forall x :: x in deltas <==> IsEdge(loads, x)
    ensures forall x :: x in keys <==> x in deltas
    ensures Distinct(keys)
    ensures forall x :: x in deltas ==> deltas[x] == DeltaAt(loads, x)
  {
    deltas, keys := map[], [];
    for n := 0 to |loads|
      invariant Tallies(deltas, loads[..n])
      invariant forall x :: x in keys <==> x in deltas
      invariant Distinct(keys)
    {
      TalliesOneMore(deltas, loads, n);
      deltas, keys := Bump(deltas, keys, loads[n].span.lo, loads[n].units);
      deltas, keys := Bump(deltas, keys, loads[n].span.hi, -loads[n].units);
    }
    assert loads[..|loads|] == loads;
  }

  /** deltas[at] = deltas.get(at, 0) + change */
  method Bump(deltas: map<int, int>, keys: seq<int>, at: int, change: int)
    returns (deltas': map<int, int>, keys': seq<int>)
    requires Distinct(keys) && forall x :: x in keys <==> x in deltas
    ensures Distinct(keys') && forall x :: x in keys' <==> x in deltas'
    ensures deltas' == Bumped(deltas, at, change)
  {
    keys' := if at in deltas then keys else keys + [at];
    deltas' := deltas[at := (if at in deltas then deltas[at] else 0) + change];
  }

  function Bumped(deltas: map<int, int>, at: int, change: int): map<int, int> {
    deltas[at := (if at in deltas then deltas[at] else 0) + change]
  }

  ghost predicate Tallies(deltas: map<int, int>, loads: seq<Load>) {
    && (forall x :: x in deltas <==> IsEdge(loads, x))
    && (forall x :: DeltaAt(loads, x) == if x in deltas then deltas[x] else 0)
  }

  lemma TalliesOneMore(deltas: map<int, int>, loads: seq<Load>, n: nat)
    requires n < |loads| && Tallies(deltas, loads[..n])
    ensures Tallies(Bumped(Bumped(deltas, loads[n].span.lo, loads[n].units), loads[n].span.hi, -loads[n].units), loads[..n + 1])
  {
    assert loads[..n + 1][..n] == loads[..n] && loads[..n + 1][n] == loads[n];
  }

  /** The edges in order: nothing changes strictly between two neighbours, nor before the first. */
  ghost predicate EdgesInOrder(loads: seq<Load>, instants: seq<int>) {
    && (forall i, j :: 0 <= i < j < |instants| ==> instants[i] < instants[j])
    && (forall x :: x in instants <==> IsEdge(loads, x))
  }

  lemma TotalAtNext(loads: seq<Load>, instants: seq<int>, n: nat)
    requires Ordered(loads) && EdgesInOrder(loads, instants) && n < |instants|
    ensures Covering(loads, instants[n]) ==
            (if n == 0 then 0 else Covering(loads, instants[n - 1])) + DeltaAt(loads, instants[n])
  {
    var previous := if n == 0 then instants[n] - 1 else instants[n - 1];
    forall x | x < instants[n] && (n == 0 || instants[n - 1] < x) ensures x !in instants {
    }
    if n == 0 {
      NoEdgeUpTo(loads, previous);
    }
    CoveringStep(loads, previous, instants[n]);
  }

  /** The step function of the covering sum, as its values at the edges. */
  method Levels(loads: seq<Load>) returns (levels: seq<Level>)
    requires Ordered(loads)
    ensures forall i, j :: 0 <= i < j < |levels| ==> levels[i].at < levels[j].at
    ensures forall i :: 0 <= i < |levels| ==> levels[i].total == Covering(loads, levels[i].at)
    ensures forall i :: 0 <= i < |levels| ==> IsEdge(loads, levels[i].at)
    ensures forall x :: IsEdge(loads, x) ==> exists i :: 0 <= i < |levels| && levels[i].at == x
  {
    var deltas, keys := Deltas(loads);
    var instants := Ascending(keys);
    AscendingStrict(keys);
    assert EdgesInOrder(loads, instants);
    var total := 0;
    levels := [];
    for n := 0 to |instants|
      invariant |levels| == n
      invariant forall i :: 0 <= i < n ==> levels[i] == Level(instants[i], Covering(loads, instants[i]))
      invariant total == if n == 0 then 0 else Covering(loads, instants[n - 1])
    {
      TotalAtNext(loads, instants, n);
      assert instants[n] in instants;
      total := total + deltas[instants[n]];
      levels := levels + [Level(instants[n], total)];
    }
    forall x | IsEdge(loads, x) ensures exists i :: 0 <= i < |levels| && levels[i].at == x {
      assert x in instants;
      var i :| 0 <= i < |instants| && instants[i] == x;
      assert levels[i].at == x;
    }
    assert forall i :: 0 <= i < |levels| ==> instants[i] in instants;
  }

  lemma NoEdgeUpTo(loads: seq<Load>, t: int)
    requires forall x :: x <= t ==> !IsEdge(loads, x)
    ensures Covering(loads, t) == 0
  {
    forall l | l in loads ensures !Covers(l.span, t) {
      assert IsEdge(loads, l.span.lo);
    }
    CoveringNothing(loads, t);
  }

  // ---------------------------------------------------------------- bookings of a pool

  function LoadOf(held: Reservation): Load {
    Load(WindowSpan(held.window), held.quantity)
  }

  function LoadsOf(holds: seq<Reservation>): seq<Load> {
    seq(|holds|, i requires 0 <= i < |holds| => LoadOf(holds[i]))
  }

  function Clip(s: Span, within: Option<Span>): Span {
    if within.None? then s
    else Span(if s.lo < within.value.lo then within.value.lo else s.lo,
              if within.value.hi < s.hi then within.value.hi else s.hi)
  }

  /** The loads cut to the window when one is given, the empty ones dropped. */
  function Cut(loads: seq<Load>, within: Option<Span>): seq<Load> {
    if loads == [] then []
    else
      var load := loads[|loads| - 1];
      var s := Clip(load.span, within);
      var front := Cut(loads[..|loads| - 1], within);
      if s.lo < s.hi then front + [Load(s, load.units)] else front
  }

  function Clipped(holds: seq<Reservation>, within: Option<Span>): seq<Load> {
    Cut(LoadsOf(holds), within)
  }

  predicate Quantities(holds: seq<Reservation>) {
    forall h :: h in holds ==> 0 <= h.quantity
  }

  lemma CoveringOneMore(holds: seq<Reservation>, held: Reservation, t: int)
    ensures Covering(LoadsOf(holds + [held]), t)
         == Covering(LoadsOf(holds), t) + if Covers(WindowSpan(held.window), t) then held.quantity else 0
  {
    var loads := LoadsOf(holds + [held]);
    assert loads[..|loads| - 1] == LoadsOf(holds);
  }

  lemma {:induction false} CutOrdered(loads: seq<Load>, within: Option<Span>)
    ensures Ordered(Cut(loads, within))
    ensures NonNegative(loads) ==> NonNegative(Cut(loads, within))
  {
    if loads != [] {
      CutOrdered(loads[..|loads| - 1], within);
      assert loads[|loads| - 1] in loads;
    }
  }

  /** Cutting changes nothing inside the window and leaves nothing outside it. */
  lemma {:induction false} CutCovering(loads: seq<Load>, within: Option<Span>, t: int)
    ensures Covering(Cut(loads, within), t)
         == if within.None? || Covers(within.value, t) then Covering(loads, t) else 0
  {
    if loads != [] {
      var front, load := loads[..|loads| - 1], loads[|loads| - 1];
      CutCovering(front, within, t);
      var kept := Cut(front, within);
      assert (kept + [Load(Clip(load.span, within), load.units)])[..|kept|] == kept;
    }
  }

  lemma ClippedLoads(holds: seq<Reservation>, within: Option<Span>)
    ensures Ordered(Clipped(holds, within))
    ensures Quantities(holds) ==> NonNegative(Clipped(holds, within))
    ensures forall t :: Covering(Clipped(holds, within), t)
                     == if within.None? || Covers(within.value, t) then Covering(LoadsOf(holds), t) else 0
  {
    CutOrdered(LoadsOf(holds), within);
    forall t ensures Covering(Clipped(holds, within), t)
                  == if within.None? || Covers(within.value, t) then Covering(LoadsOf(holds), t) else 0
    {
      CutCovering(LoadsOf(holds), within, t);
    }
  }

  /** The most units a set of holds takes at any one moment, inside the window when one is given. */
  method PoolPeak(holds: seq<Reservation>, within: Option<Span>) returns (peak: int)
    requires Quantities(holds)
    ensures peak == PeakOf(Clipped(holds, within))
    ensures forall t :: within.None? || Covers(within.value, t) ==> Covering(LoadsOf(holds), t) <= peak
  {
    var spans: seq<Load> := [];
    for n := 0 to |holds|
      invariant spans == Clipped(holds[..n], within)
    {
      assert LoadsOf(holds[..n + 1])[..n] == LoadsOf(holds[..n]);
      var s := Clip(WindowSpan(holds[n].window), within);
      if s.lo < s.hi {
        spans := spans + [Load(s, holds[n].quantity)];
      }
    }
    assert holds[..|holds|] == holds;
    ClippedLoads(holds, within);
    var levels := Levels(spans);
    peak := 0;
    for n := 0 to |levels|
      invariant forall i :: 0 <= i < n ==> levels[i].total <= peak
      invariant 0 <= peak && (peak == 0 || exists i :: 0 <= i < n && levels[i].total == peak)
    {
      if peak < levels[n].total {
        peak := levels[n].total;
      }
    }
    PeakIsMaximum(spans);
    PeakAmongBounds(spans, spans);
    forall l | l in spans ensures Covering(spans, l.span.lo) <= peak {
      assert IsEdge(spans, l.span.lo);
    }
  }

  /** Inside a non-empty window the clipped peak is reached at an instant of that window. */
  lemma PeakReachedWithin(holds: seq<Reservation>, w: Span) returns (t: int)
    requires Quantities(holds) && w.lo < w.hi
    ensures Covers(w, t) && Covering(LoadsOf(holds), t) == PeakOf(Clipped(holds, Some(w)))
    ensures forall t' :: Covers(w, t') ==> Covering(LoadsOf(holds), t') <= PeakOf(Clipped(holds, Some(w)))
  {
    ClippedLoads(holds, Some(w));
    var loads := Clipped(holds, Some(w));
    PeakIsMaximum(loads);
    t :| Covering(loads, t) == PeakOf(loads);
    if !Covers(w, t) {
      t := w.lo;
      CoveringMonotone(loads, t, t);
    }
  }

  // ---------------------------------------------------------------- full stretches

  ghost predicate InSome(spans: seq<Span>, t: int) {
    exists k :: 0 <= k < |spans| && Covers(spans[k], t)
  }

  /** Non-empty, in order, and with a gap between any two: no two could be written as one. */
  ghost predicate Separated(spans: seq<Span>) {
    && (forall k :: 0 <= k < |spans| ==> spans[k].lo < spans[k].hi)
    && (forall j, k :: 0 <= j < k < |spans| ==> spans[j].hi < spans[k].lo)
  }

  /** Between edges the sum stands still. */
  lemma {:induction false} CoveringStands(loads: seq<Load>, a: int, b: int)
    requires a <= b && forall x :: a < x <= b ==> !IsEdge(loads, x)
    ensures Covering(loads, a) == Covering(loads, b)
  {
    if loads != [] {
      var front, last := loads[..|loads| - 1], loads[|loads| - 1];
      assert last in loads;
      forall x | a < x <= b ensures !IsEdge(front, x) {
        assert !IsEdge(loads, x);
      }
      assert IsEdge(loads, last.span.lo) && IsEdge(loads, last.span.hi);
      CoveringStands(front, a, b);
    }
  }

  lemma NoEdgeFrom(loads: seq<Load>, t: int)
    requires forall x :: t < x ==> !IsEdge(loads, x)
    ensures Covering(loads, t) == 0
  {
    forall l | l in loads ensures !Covers(l.span, t) {
      assert IsEdge(loads, l.span.hi);
    }
    CoveringNothing(loads, t);
  }

  /** Levels as a complete account of the loads: at and after each level, up to the next one. */
  ghost predicate Account(loads: seq<Load>, levels: seq<Level>) {
    && (forall i, j :: 0 <= i < j < |levels| ==> levels[i].at < levels[j].at)
    && (forall i :: 0 <= i < |levels| ==> levels[i].total == Covering(loads, levels[i].at))
    && (forall x :: IsEdge(loads, x) ==> exists i :: 0 <= i < |levels| && levels[i].at == x)
  }

  lemma AccountAt(loads: seq<Load>, levels: seq<Level>, n: nat, t: int)
    requires Account(loads, levels) && n <= |levels|
    requires n == |levels| || t < levels[n].at
    requires n == 0 || levels[n - 1].at <= t
    ensures Covering(loads, t) == if n == 0 then 0 else levels[n - 1].total
  {
    forall x | IsEdge(loads, x) ensures (n > 0 && x <= levels[n - 1].at) || (n < |levels| && levels[n].at <= x) {
      var i :| 0 <= i < |levels| && levels[i].at == x;
    }
    if n == 0 {
      NoEdgeUpTo(loads, t);
    } else {
      CoveringStands(loads, levels[n - 1].at, t);
    }
  }

  /** What the stretch loop knows after n levels: the shape of what it closed, and what it may have left open. */
  ghost predicate Closed(levels: seq<Level>, n: nat, atLeast: int, stretches: seq<Span>, start: Option<int>)
    requires n <= |levels|
  {
    && Separated(stretches)
    && (start.Some? <==> n > 0 && atLeast <= levels[n - 1].total)
    && (start.Some? ==> start.value <= levels[n - 1].at)
    && (forall k :: 0 <= k < |stretches| ==> n > 0 && stretches[k].hi <= levels[n - 1].at)
    && (start.Some? ==> forall k :: 0 <= k < |stretches| ==> stretches[k].hi < start.value)
    && (atLeast < 1 ==> stretches == [])
  }

  /** And what it covers: every instant before the next level is settled. */
  ghost predicate Settled(loads: seq<Load>, levels: seq<Level>, n: nat, atLeast: int, stretches: seq<Span>, start: Option<int>)
    requires n <= |levels|
  {
    forall t :: (n == |levels| || t < levels[n].at) ==>
      ((InSome(stretches, t) || (start.Some? && start.value <= t)) <==> atLeast <= Covering(loads, t))
  }

  /** One turn of the stretch loop. */
  function StretchStep(level: Level, atLeast: int, stretches: seq<Span>, start: Option<int>): (seq<Span>, Option<int>) {
    if atLeast <= level.total && start.None? then (stretches, Some(level.at))
    else if level.total < atLeast && start.Some? then (stretches + [Span(start.value, level.at)], None)
    else (stretches, start)
  }

  lemma SettledStep(loads: seq<Load>, levels: seq<Level>, n: nat, atLeast: int, stretches: seq<Span>, start: Option<int>)
    requires Account(loads, levels) && n < |levels| && 1 <= atLeast
    requires Closed(levels, n, atLeast, stretches, start) && Settled(loads, levels, n, atLeast, stretches, start)
    ensures var (stretches', start') := StretchStep(levels[n], atLeast, stretches, start);
            Settled(loads, levels, n + 1, atLeast, stretches', start')
  {
    var (stretches', start') := StretchStep(levels[n], atLeast, stretches, start);
    forall t | n + 1 == |levels| || t < levels[n + 1].at
      ensures (InSome(stretches', t) || (start'.Some? && start'.value <= t)) <==> atLeast <= Covering(loads, t)
    {
      InSomeOneMore(stretches, stretches', t);
      if levels[n].at <= t {
        AccountAt(loads, levels, n + 1, t);
      }
    }
  }

  /** The stretch loop over the levels. */
  method SweepStretches(ghost loads: seq<Load>, levels: seq<Level>, atLeast: int) returns (stretches: seq<Span>)
    requires NonNegative(loads) && Account(loads, levels)
    ensures Separated(stretches)
    ensures 1 <= atLeast ==> forall t :: InSome(stretches, t) <==> atLeast <= Covering(loads, t)
    ensures atLeast < 1 ==> stretches == []
  {
    SettledAtFirst(loads, levels, atLeast);
    stretches := [];
    var start: Option<int> := None;
    for n := 0 to |levels|
      invariant Closed(levels, n, atLeast, stretches, start)
      invariant 1 <= atLeast ==> Settled(loads, levels, n, atLeast, stretches, start)
    {
      CoveringMonotone(loads, levels[n].at, levels[n].at);
      if 1 <= atLeast {
        SettledStep(loads, levels, n, atLeast, stretches, start);
      }
      if atLeast <= levels[n].total && start.None? {
        start := Some(levels[n].at);
      } else if levels[n].total < atLeast && start.Some? {
        stretches, start := stretches + [Span(start.value, levels[n].at)], None;
      }
    }
    AllSettled(loads, levels, atLeast, stretches, start);
  }

  /** The upper level set of the covering sum at atLeast, as maximal spans. Below one the level set is the whole
      line, and no span is ever closed. */
  method PoolStretches(holds: seq<Reservation>, atLeast: int) returns (stretches: seq<Span>)
    requires Quantities(holds)
    ensures Separated(stretches)
    ensures 1 <= atLeast ==> forall t :: InSome(stretches, t) <==> atLeast <= Covering(LoadsOf(holds), t)
    ensures atLeast < 1 ==> stretches == []
  {
    var levels := Levels(LoadsOf(holds));
    stretches := SweepStretches(LoadsOf(holds), levels, atLeast);
  }

  lemma AllSettled(loads: seq<Load>, levels: seq<Level>, atLeast: int, stretches: seq<Span>, start: Option<int>)
    requires Account(loads, levels)
    requires Closed(levels, |levels|, atLeast, stretches, start)
    requires 1 <= atLeast ==> Settled(loads, levels, |levels|, atLeast, stretches, start)
    ensures 1 <= atLeast ==> forall t :: InSome(stretches, t) <==> atLeast <= Covering(loads, t)
  {
    LastTotal(loads, levels);
  }

  lemma SettledAtFirst(loads: seq<Load>, levels: seq<Level>, atLeast: int)
    requires Account(loads, levels)
    ensures 1 <= atLeast ==> Settled(loads, levels, 0, atLeast, [], None)
  {
    forall t | |levels| == 0 || t < levels[0].at ensures Covering(loads, t) == 0 {
      AccountAt(loads, levels, 0, t);
    }
  }

  lemma LastTotal(loads: seq<Load>, levels: seq<Level>)
    requires Account(loads, levels)
    ensures |levels| > 0 ==> levels[|levels| - 1].total == 0
  {
    if |levels| > 0 {
      NoEdgeFrom(loads, levels[|levels| - 1].at);
    }
  }

  lemma InSomeOneMore(before: seq<Span>, after: seq<Span>, t: int)
    requires before == after || (|after| == |before| + 1 && after[..|before|] == before)
    ensures InSome(after, t) <==> InSome(before, t) || (before != after && Covers(after[|before|], t))
  {
    if InSome(before, t) {
      var k :| 0 <= k < |before| && Covers(before[k], t);
      assert after[k] == before[k];
    }
    if before != after && Covers(after[|before|], t) {
      assert InSome(after, t);
    }
  }

  function BoundsOf(busy: seq<Entry>): seq<Span> {
    seq(|busy|, i requires 0 <= i < |busy| => Bounds(busy[i]))
  }

  /** The level set at the capacity, intersected with the range and written as entries. */
  method FullIntervals(holds: seq<Reservation>, capacity: int, first: int, last: int) returns (busy: seq<Entry>)
    requires Quantities(holds)
    ensures Separated(BoundsOf(busy))
    ensures forall t :: Midnight(first) <= t < Midnight(last + 1) ==>
              (InSome(BoundsOf(busy), t) <==> 1 <= capacity <= Covering(LoadsOf(holds), t))
    ensures forall t :: InSome(BoundsOf(busy), t) ==> Midnight(first) <= t < Midnight(last + 1)
    ensures forall e :: e in busy ==> e.source.FullPool?
  {
    var range := Span(Midnight(first), Midnight(last + 1));
    var stretches := PoolStretches(holds, capacity);
    busy := [];
    for n := 0 to |stretches|
      invariant Separated(BoundsOf(busy))
      invariant forall k :: 0 <= k < |busy| ==> n > 0 && Bounds(busy[k]).hi <= stretches[n - 1].hi
      invariant forall t :: InSome(BoundsOf(busy), t) <==> Covers(range, t) && InSome(stretches[..n], t)
      invariant forall e :: e in busy ==> e.source.FullPool?
    {
      ghost var before := busy;
      var s := Clip(stretches[n], Some(range));
      if s.lo < s.hi {
        busy := busy + [Entry(DateOf(s.lo), TodOf(s.lo), DateOf(s.hi), TodOf(s.hi), FullPool)];
        CombineRoundTrip(s.lo, 0, 0);
        CombineRoundTrip(s.hi, 0, 0);
        assert BoundsOf(busy) == BoundsOf(before) + [s];
      }
      forall t ensures InSome(BoundsOf(busy), t) <==> Covers(range, t) && InSome(stretches[..n + 1], t) {
        assert stretches[..n + 1][..n] == stretches[..n] && stretches[..n + 1][n] == stretches[n];
        InSomeOneMore(stretches[..n], stretches[..n + 1], t);
        assert BoundsOf(before) == BoundsOf(busy)[..|before|];
        InSomeOneMore(BoundsOf(before), BoundsOf(busy), t);
      }
    }
    assert stretches[..|stretches|] == stretches;
    if capacity < 1 {
      assert forall t :: !InSome(stretches, t);
    }
  }
}
