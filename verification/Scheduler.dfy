/** The host clock and the jobs it drives (backend/app/core/clock.py, backend/app/cron/scheduled.py).
    An instant counts microseconds from 1970 UTC. */
module Scheduler {
  import opened Sequences

  const SECOND: int := 1_000_000

  /** The organization's zone: the local date of an instant, and the instant a wall clock reading
      (in minutes) falls on, on a date. */
  datatype Zone = Zone(dateOf: int -> int, momentOf: (int, int) -> int)

  /** Local dates never run backwards, and a reading on a date falls on that date. */
  ghost predicate ValidZone(zone: Zone) {
    && (forall s, t :: s <= t ==> zone.dateOf(s) <= zone.dateOf(t))
    && (forall day, minute :: zone.dateOf(zone.momentOf(day, minute)) == day)
  }

  datatype Cadence = DailyAt(minute: int) | Every(seconds: int) | Never

  datatype Settings = Settings(zone: Zone, changeFeed: bool, webhookSeconds: int)

  ghost predicate ValidSettings(s: Settings) {
    ValidZone(s.zone) && s.webhookSeconds >= 1
  }

  /** The job table, in the order jobs run when two fall on one instant. */
  function Jobs(s: Settings): seq<Cadence> {
    [DailyAt(23 * 60), DailyAt(3 * 60), DailyAt(3 * 60 + 30), DailyAt(3 * 60 + 45), Every(300),
     if s.changeFeed then Every(s.webhookSeconds) else Never]
  }

  // ---------------------------------------------------------------- moments

  ghost predicate Within(t: int, previous: int, current: int) {
    previous < t <= current
  }

  function DailyOn(zone: Zone, minute: int, previous: int, current: int, day: int, last: int): seq<int>
    decreases last - day + 1
  {
    if last < day then []
    else
      var earlier := DailyOn(zone, minute, previous, current, day, last - 1);
      if previous < zone.momentOf(last, minute) <= current then earlier + [zone.momentOf(last, minute)] else earlier
  }

  /** The moments a daily job has in (previous, current]. */
  function Daily(zone: Zone, minute: int, previous: int, current: int): seq<int> {
    DailyOn(zone, minute, previous, current, zone.dateOf(previous), zone.dateOf(current))
  }

  /** daily_at, stepping the date from the one previous falls on to the one current falls on. */
  method DailyMoments(zone: Zone, minute: int, previous: int, current: int) returns (moments: seq<int>)
    ensures moments == Daily(zone, minute, previous, current)
  {
    var first, last := zone.dateOf(previous), zone.dateOf(current);
    var day := first;
    moments := [];
    while day <= last
      invariant first <= day && (day <= last + 1 || day == first)
      invariant moments == DailyOn(zone, minute, previous, current, first, day - 1)
    {
      var moment := zone.momentOf(day, minute);
      if previous < moment <= current {
        moments := moments + [moment];
      }
      day := day + 1;
    }
    if last < first {
      assert DailyOn(zone, minute, previous, current, first, day - 1) == [];
    }
  }

  lemma {:induction false} InDailyOn(zone: Zone, minute: int, previous: int, current: int, day: int, last: int)
    requires ValidZone(zone)
    ensures forall m :: m in DailyOn(zone, minute, previous, current, day, last)
                  <==> exists d :: day <= d <= last && m == zone.momentOf(d, minute) && Within(m, previous, current)
    ensures forall i, j :: 0 <= i < j < |DailyOn(zone, minute, previous, current, day, last)| ==>
              DailyOn(zone, minute, previous, current, day, last)[i] < DailyOn(zone, minute, previous, current, day, last)[j]
    decreases last - day + 1
  {
    if day <= last {
      InDailyOn(zone, minute, previous, current, day, last - 1);
      var earlier := DailyOn(zone, minute, previous, current, day, last - 1);
      forall i | 0 <= i < |earlier| ensures earlier[i] < zone.momentOf(last, minute) {
        assert earlier[i] in earlier;
        var d :| day <= d <= last - 1 && earlier[i] == zone.momentOf(d, minute);
      }
    }
  }

  /** Every date's moment in the interval, over all dates, each once and in order. */
  lemma DailyExact(zone: Zone, minute: int, previous: int, current: int, m: int)
    requires ValidZone(zone)
    ensures m in Daily(zone, minute, previous, current) <==> IsDaily(zone, minute, m) && Within(m, previous, current)
  {
    InDailyOn(zone, minute, previous, current, zone.dateOf(previous), zone.dateOf(current));
    if IsDaily(zone, minute, m) && Within(m, previous, current) {
      var d :| m == zone.momentOf(d, minute);
      assert zone.dateOf(previous) <= d <= zone.dateOf(current);
    }
  }

  ghost predicate IsDaily(zone: Zone, minute: int, m: int) {
    exists d :: m == zone.momentOf(d, minute)
  }

  /** int(): towards zero, which for an instant before 1970 is up. */
  function WholeSeconds(instant: int): int {
    if 0 <= instant then instant / SECOND else -(-instant / SECOND)
  }

  /** The mark of the UTC grid at or before an instant. */
  function Mark(seconds: int, instant: int): int
    requires seconds >= 1
  {
    WholeSeconds(instant) / seconds * seconds * SECOND
  }

  function Marks(seconds: int, previous: int, current: int): seq<int>
    requires seconds >= 1
  {
    var mark := Mark(seconds, current);
    if previous < mark <= current then [mark] else []
  }

  ghost predicate OnGrid(seconds: int, t: int)
    requires seconds >= 1
  {
    exists k :: t == k * seconds * SECOND
  }

  /** An interval job runs at most once, at the last mark of the interval. It misses one that is there exactly
      when rounding put the mark past the end, which from 1970 on it never does. */
  lemma MarksExact(seconds: int, previous: int, current: int)
    requires seconds >= 1
    ensures |Marks(seconds, previous, current)| <= 1
    ensures forall m :: m in Marks(seconds, previous, current) ==> OnGrid(seconds, m) && Within(m, previous, current)
    ensures forall m, t :: m in Marks(seconds, previous, current) && OnGrid(seconds, t) && Within(t, previous, current) ==> t <= m
    ensures (Marks(seconds, previous, current) == [] ==> forall t :: OnGrid(seconds, t) ==> !Within(t, previous, current))
       <==> !(current < Mark(seconds, current) && previous < Mark(seconds, current) - seconds * SECOND)
    ensures 0 <= current ==> Mark(seconds, current) <= current
  {
    var q := WholeSeconds(current) / seconds;
    var mark := Mark(seconds, current);
    assert mark == q * seconds * SECOND;
    assert OnGrid(seconds, mark);
    forall t | OnGrid(seconds, t) && t <= current ensures t <= mark && (current < mark ==> t <= mark - seconds * SECOND) {
      var k :| t == k * seconds * SECOND;
      GridBelow(k, seconds, current);
    }
    MarkNear(seconds, current);
    OneMarkBack(q, seconds);
  }

  lemma OneMarkBack(q: int, seconds: int)
    requires seconds >= 1
    ensures OnGrid(seconds, q * seconds * SECOND - seconds * SECOND)
  {
    assert q * seconds * SECOND - seconds * SECOND == (q - 1) * seconds * SECOND;
  }

  /** The mark is past the instant by less than a second, and not at all from 1970 on. */
  lemma MarkNear(seconds: int, current: int)
    requires seconds >= 1
    ensures Mark(seconds, current) < current + SECOND
    ensures 0 <= current ==> Mark(seconds, current) <= current
  {
    var w := WholeSeconds(current);
    assert w / seconds * seconds <= w by {
      assert w == w / seconds * seconds + w % seconds;
    }
  }

  lemma GridBelow(k: int, seconds: int, current: int)
    requires seconds >= 1 && k * seconds * SECOND <= current
    ensures k * seconds * SECOND <= Mark(seconds, current)
    ensures current < Mark(seconds, current) ==> k * seconds * SECOND <= Mark(seconds, current) - seconds * SECOND
  {
    var w := WholeSeconds(current);
    assert k * seconds <= w;
    MultiplesBelow(k, seconds, w);
    if current < Mark(seconds, current) {
      FewerTimes(k, w / seconds, seconds);
    }
  }

  lemma FewerTimes(a: int, b: int, c: int)
    requires a * c < b * c && c >= 1
    ensures a * c <= b * c - c
  {
    if b <= a {
      TimesKeepsOrder(b, a, c);
    } else {
      TimesKeepsOrder(a, b - 1, c);
      assert (b - 1) * c == b * c - c;
    }
  }

  /** A microsecond before 1970, on a grid of one second: int() rounds up to 1970, and the mark a second
      before it, which lies in the interval, is missed. */
  lemma MarkBefore1970IsMissed()
    ensures Marks(1, -2_000_000, -1) == [] && OnGrid(1, -1_000_000) && Within(-1_000_000, -2_000_000, -1)
  {
    assert -1_000_000 == -1 * 1 * SECOND;
  }

  lemma MultiplesBelow(k: int, seconds: int, w: int)
    requires seconds >= 1 && k * seconds <= w
    ensures k * seconds <= w / seconds * seconds
  {
    var q := w / seconds;
    assert w < (q + 1) * seconds;
    if q + 1 <= k {
      TimesKeepsOrder(q + 1, k, seconds);
    } else {
      TimesKeepsOrder(k, q, seconds);
    }
  }

  lemma TimesKeepsOrder(a: int, b: int, c: int)
    requires a <= b && 0 <= c
    ensures a * c <= b * c
  {
  }

  // ---------------------------------------------------------------- what is due

  /** A job, by its place in the table, at a moment. */
  datatype Firing = Firing(at: int, rank: int)

  predicate FiringLe(a: Firing, b: Firing) {
    if a.at != b.at then a.at < b.at else a.rank <= b.rank
  }

  predicate FiringLt(a: Firing, b: Firing) {
    if a.at != b.at then a.at < b.at else a.rank < b.rank
  }

  function MomentsOf(s: Settings, c: Cadence, previous: int, current: int): seq<int>
    requires c.Every? ==> c.seconds >= 1
  {
    match c
    case DailyAt(minute) => Daily(s.zone, minute, previous, current)
    case Every(seconds) => Marks(seconds, previous, current)
    case Never => []
  }

  function Stamped(moments: seq<int>, rank: int): seq<Firing> {
    seq(|moments|, i requires 0 <= i < |moments| => Firing(moments[i], rank))
  }

  predicate Ticks(jobs: seq<Cadence>) {
    forall c :: c in jobs && c.Every? ==> c.seconds >= 1
  }

  function Gathered(s: Settings, jobs: seq<Cadence>, previous: int, current: int): seq<Firing>
    requires Ticks(jobs)
  {
    if jobs == [] then []
    else
      assert jobs[|jobs| - 1] in jobs;
      Gathered(s, jobs[..|jobs| - 1], previous, current)
      + Stamped(MomentsOf(s, jobs[|jobs| - 1], previous, current), |jobs| - 1)
  }

  /** due_jobs: everything with a moment in the interval, in the order it runs. */
  function DueJobs(s: Settings, previous: int, current: int): seq<Firing>
    requires s.webhookSeconds >= 1
  {
    SortBy(Gathered(s, Jobs(s), previous, current), FiringLe)
  }

  ghost predicate FiresAt(s: Settings, jobs: seq<Cadence>, previous: int, current: int, f: Firing)
    requires Ticks(jobs)
  {
    && 0 <= f.rank < |jobs| && Within(f.at, previous, current)
    && match jobs[f.rank]
       case DailyAt(minute) => IsDaily(s.zone, minute, f.at)
       case Every(seconds) => assert jobs[f.rank] in jobs; f.at == Mark(seconds, current)
       case Never => false
  }

  lemma StampedDistinct(moments: seq<int>, rank: int)
    requires forall i, j :: 0 <= i < j < |moments| ==> moments[i] < moments[j]
    ensures Distinct(Stamped(moments, rank))
    ensures forall f :: f in Stamped(moments, rank) <==> f.rank == rank && f.at in moments
  {
    forall f: Firing | f.rank == rank && f.at in moments ensures f in Stamped(moments, rank) {
      var k :| 0 <= k < |moments| && moments[k] == f.at;
      assert Stamped(moments, rank)[k] == f;
    }
  }

  lemma MomentsAscend(s: Settings, c: Cadence, previous: int, current: int)
    requires ValidZone(s.zone) && (c.Every? ==> c.seconds >= 1)
    ensures forall i, j :: 0 <= i < j < |MomentsOf(s, c, previous, current)| ==>
              MomentsOf(s, c, previous, current)[i] < MomentsOf(s, c, previous, current)[j]
  {
    if c.DailyAt? {
      InDailyOn(s.zone, c.minute, previous, current, s.zone.dateOf(previous), s.zone.dateOf(current));
    }
  }

  lemma {:induction false} GatheredExact(s: Settings, jobs: seq<Cadence>, previous: int, current: int)
    requires ValidZone(s.zone) && Ticks(jobs)
    ensures Distinct(Gathered(s, jobs, previous, current))
    ensures forall f :: f in Gathered(s, jobs, previous, current) <==> FiresAt(s, jobs, previous, current, f)
  {
    if jobs != [] {
      var front, c, rank := jobs[..|jobs| - 1], jobs[|jobs| - 1], |jobs| - 1;
      assert c in jobs;
      GatheredExact(s, front, previous, current);
      var moments := MomentsOf(s, c, previous, current);
      MomentsAscend(s, c, previous, current);
      StampedDistinct(moments, rank);
      var a, b := Gathered(s, front, previous, current), Stamped(moments, rank);
      forall i, j | 0 <= i < |a| && 0 <= j < |b| ensures a[i] != b[j] {
        assert a[i] in a && b[j] in b;
      }
      forall f ensures f in a + b <==> FiresAt(s, jobs, previous, current, f) {
        assert f.rank < rank ==> (FiresAt(s, front, previous, current, f) <==> FiresAt(s, jobs, previous, current, f));
        if c.DailyAt? {
          DailyExact(s.zone, c.minute, previous, current, f.at);
        }
      }
    }
  }

  /** The due list, exactly: which firings, each once, in (moment, rank) order. */
  lemma DueExact(s: Settings, previous: int, current: int)
    requires ValidSettings(s)
    ensures forall f :: f in DueJobs(s, previous, current) <==> FiresAt(s, Jobs(s), previous, current, f)
    ensures forall i, j :: 0 <= i < j < |DueJobs(s, previous, current)| ==>
              var a, b := DueJobs(s, previous, current)[i], DueJobs(s, previous, current)[j];
              a.at < b.at || (a.at == b.at && a.rank < b.rank)
  {
    var gathered := Gathered(s, Jobs(s), previous, current);
    GatheredExact(s, Jobs(s), previous, current);
    SortByKeeps(gathered, FiringLe);
    var due := DueJobs(s, previous, current);
    PermutationDistinct(due, gathered);
    forall i, j | 0 <= i < j < |due| ensures FiringLt(due[i], due[j]) {
      assert FiringLe(due[i], due[j]) && due[i] != due[j];
    }
  }

  /** Each job by its own times: the ledger at 23:00, the three purges at 03:00, 03:30 and 03:45, the overstay notice
      at the last mark of five minutes, and webhooks at the last mark of their own interval, with the change feed on. */
  lemma WhatFires(s: Settings, previous: int, current: int, f: Firing)
    requires ValidSettings(s)
    ensures f in DueJobs(s, previous, current) <==>
            && previous < f.at <= current
            && (|| (f.rank == 0 && IsDaily(s.zone, 1380, f.at))
                || (f.rank == 1 && IsDaily(s.zone, 180, f.at))
                || (f.rank == 2 && IsDaily(s.zone, 210, f.at))
                || (f.rank == 3 && IsDaily(s.zone, 225, f.at))
                || (f.rank == 4 && f.at in Marks(300, previous, current))
                || (f.rank == 5 && s.changeFeed && f.at in Marks(s.webhookSeconds, previous, current)))
  {
    DueExact(s, previous, current);
    assert Ticks(Jobs(s)) && |Jobs(s)| == 6;
  }

  // ---------------------------------------------------------------- advances compose

  predicate IsDailyRank(rank: int) {
    0 <= rank < 4
  }

  /** The daily firings of an advance, in order. */
  function DailyDue(s: Settings, previous: int, current: int): seq<Firing>
    requires s.webhookSeconds >= 1
  {
    Filter(DueJobs(s, previous, current), (f: Firing) => IsDailyRank(f.rank))
  }

  lemma {:induction false} FilterInOrder(fs: seq<Firing>, p: Firing -> bool)
    requires forall i, j :: 0 <= i < j < |fs| ==> FiringLt(fs[i], fs[j])
    ensures forall i, j :: 0 <= i < j < |Filter(fs, p)| ==> FiringLt(Filter(fs, p)[i], Filter(fs, p)[j])
  {
    if fs != [] {
      var front, last := fs[..|fs| - 1], fs[|fs| - 1];
      FilterInOrder(front, p);
      var kept := Filter(front, p);
      forall i | 0 <= i < |kept| ensures FiringLt(kept[i], last) {
        assert kept[i] in kept;
        var k :| 0 <= k < |front| && front[k] == kept[i];
        assert fs[k] == kept[i];
      }
    }
  }

  lemma InDailyDue(s: Settings, previous: int, current: int, f: Firing)
    requires ValidSettings(s)
    ensures f in DailyDue(s, previous, current) <==>
            IsDailyRank(f.rank) && Within(f.at, previous, current) && IsDaily(s.zone, Jobs(s)[f.rank].minute, f.at)
  {
    DueExact(s, previous, current);
    if IsDailyRank(f.rank) {
      FiresDaily(s, previous, current, f);
    }
  }

  lemma FiresDaily(s: Settings, previous: int, current: int, f: Firing)
    requires ValidSettings(s) && IsDailyRank(f.rank)
    ensures FiresAt(s, Jobs(s), previous, current, f) <==> Within(f.at, previous, current) && IsDaily(s.zone, Jobs(s)[f.rank].minute, f.at)
  {
    assert Jobs(s)[f.rank].DailyAt?;
  }

  lemma DailyDueInOrder(s: Settings, previous: int, current: int)
    requires ValidSettings(s)
    ensures forall i, j :: 0 <= i < j < |DailyDue(s, previous, current)| ==>
              FiringLt(DailyDue(s, previous, current)[i], DailyDue(s, previous, current)[j])
  {
    DueExact(s, previous, current);
    FilterInOrder(DueJobs(s, previous, current), (f: Firing) => IsDailyRank(f.rank));
  }

  /** Splitting one advance into two gives the same daily runs in the same order. */
  lemma DailySplits(s: Settings, previous: int, middle: int, current: int)
    requires ValidSettings(s) && previous <= middle <= current
    ensures DailyDue(s, previous, current) == DailyDue(s, previous, middle) + DailyDue(s, middle, current)
  {
    var a, b, whole := DailyDue(s, previous, middle), DailyDue(s, middle, current), DailyDue(s, previous, current);
    DailyDueInOrder(s, previous, middle);
    DailyDueInOrder(s, middle, current);
    DailyDueInOrder(s, previous, current);
    forall f ensures f in whole <==> f in a + b {
      InDailyDue(s, previous, middle, f);
      InDailyDue(s, middle, current, f);
      InDailyDue(s, previous, current, f);
    }
    forall i, j | 0 <= i < |a| && 0 <= j < |b| ensures FiringLt(a[i], b[j]) {
      assert a[i] in a && b[j] in b;
      InDailyDue(s, previous, middle, a[i]);
      InDailyDue(s, middle, current, b[j]);
    }
    StrictOrderUnique(whole, a + b, FiringLt);
  }

  /** The daily runs of a whole sequence of advances. */
  function DailyRuns(s: Settings, start: int, stops: seq<int>): seq<Firing>
    requires s.webhookSeconds >= 1
  {
    if stops == [] then []
    else
      DailyRuns(s, start, stops[..|stops| - 1])
      + DailyDue(s, if |stops| == 1 then start else stops[|stops| - 2], stops[|stops| - 1])
  }

  /** However the host cuts time up, each daily moment runs exactly once, in (moment, rank) order. */
  lemma {:induction false} AdvancesCompose(s: Settings, start: int, stops: seq<int>)
    requires ValidSettings(s) && stops != []
    requires start <= stops[0] && forall i, j :: 0 <= i < j < |stops| ==> stops[i] <= stops[j]
    ensures DailyRuns(s, start, stops) == DailyDue(s, start, stops[|stops| - 1])
  {
    if |stops| > 1 {
      var front, mid, end := stops[..|stops| - 1], stops[|stops| - 2], stops[|stops| - 1];
      assert front[|front| - 1] == mid && start <= mid <= end && front[0] == stops[0];
      AdvancesCompose(s, start, front);
      DailySplits(s, start, mid, end);
    } else {
      assert stops[..0] == [] && DailyRuns(s, start, []) == [];
    }
  }

  // ---------------------------------------------------------------- the clock and the run

  class HostClock {
    var now: int

    constructor (start: int)
      ensures now == start
    {
      now := start;
    }

    /** Moves forward or stays; a request to go backwards is refused and changes nothing. */
    method AdvanceTo(instant: int) returns (refused: bool)
      modifies this
      ensures refused <==> instant < old(now)
      ensures now == if refused then old(now) else instant
    {
      if instant < now {
        return true;
      }
      now := instant;
      refused := false;
    }
  }

  datatype Advanced = Ran(firings: seq<Firing>) | Backwards

  /** run_due_jobs from where the clock stands: each job runs with the clock at its own moment, and
      no move of the clock on the way is refused. */
  method Advance(clock: HostClock, s: Settings, instant: int) returns (result: Advanced, seenByJobs: seq<int>)
    requires ValidSettings(s)
    modifies clock
    ensures instant < old(clock.now) ==> result.Backwards? && clock.now == old(clock.now)
    ensures old(clock.now) <= instant ==> result == Ran(DueJobs(s, old(clock.now), instant)) && clock.now == instant
    ensures result.Ran? ==> |seenByJobs| == |result.firings|
    ensures result.Ran? ==> forall i :: 0 <= i < |seenByJobs| ==> seenByJobs[i] == result.firings[i].at
  {
    seenByJobs := [];
    if instant < clock.now {
      return Backwards, [];
    }
    var due := DueJobs(s, clock.now, instant);
    DueExact(s, clock.now, instant);
    forall i | 0 <= i < |due| ensures clock.now <= due[i].at <= instant {
      assert due[i] in due;
    }
    var ran: seq<Firing>;
    ran, seenByJobs := RunAll(clock, due, instant);
    var refused := clock.AdvanceTo(instant);
    assert !refused;
    result := Ran(ran);
  }

  method RunAll(clock: HostClock, due: seq<Firing>, instant: int) returns (ran: seq<Firing>, seenByJobs: seq<int>)
    requires clock.now <= instant && forall i :: 0 <= i < |due| ==> clock.now <= due[i].at <= instant
    requires forall i, j :: 0 <= i < j < |due| ==> due[i].at <= due[j].at
    modifies clock
    ensures ran == due && clock.now <= instant
    ensures |seenByJobs| == |due| && forall i :: 0 <= i < |due| ==> seenByJobs[i] == due[i].at
  {
    ran, seenByJobs := [], [];
    for n := 0 to |due|
      invariant old(clock.now) <= clock.now <= instant
      invariant n > 0 ==> clock.now == due[n - 1].at
      invariant n == 0 ==> clock.now == old(clock.now)
      invariant ran == due[..n]
      invariant |seenByJobs| == n && forall i :: 0 <= i < n ==> seenByJobs[i] == due[i].at
    {
      var refused := clock.AdvanceTo(due[n].at);
      assert !refused;
      seenByJobs := seenByJobs + [clock.now];
      ran := ran + [due[n]];
    }
    assert due[..|due|] == due;
  }
}
