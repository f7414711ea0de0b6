/** From a marker to an attempt: the change feed of FanOut.dfy and the deliveries of Lease.dfy on one clock
    (backend/app/services/webhooks.py: run_pass, which fans out and then claims, sends and records). */
module Pipeline {
  import opened Sequences
  import L = Lease
  import F = FanOut

  datatype Hub = Hub(feed: F.Feed, table: L.State)

  datatype Step =
    | Change(change: F.Step)
    | Subscribe(sid: int, org: int, wanted: set<F.EventType>)
    | Elapse(lapse: int)
    | Pass(sid: int)
    | Work(work: L.Step)

  predicate Enabled(h: Hub, step: Step) {
    match step
    case Change(change) => F.Enabled(h.feed, change) && (change.Insert? || change.Commit? || change.Rollback?)
    case Subscribe(sid, org, wanted) => F.Enabled(h.feed, F.Subscribe(sid, org, wanted))
    case Elapse(lapse) => F.Enabled(h.feed, F.Elapse(lapse)) && L.Enabled(h.table, L.Tick(lapse))
    case Pass(sid) => sid in h.feed.subs
    case Work(work) => L.Enabled(h.table, work) && !work.Tick? && !work.FanOut?
  }

  /** The deliveries fan-out adds, pending and due now. Each has an event id of its own. */
  function NewRows(added: seq<F.Made>, now: int, base: int): seq<L.Delivery> {
    seq(|added|, i requires 0 <= i < |added| =>
      L.Delivery(added[i].sub, added[i].entity, added[i].marker, base + i, L.Pending, 0, Some(now), 0))
  }

  /** Only a subscription that is active and not paused is fanned out for. */
  function FeedAfter(h: Hub, sid: int): F.Feed
    requires sid in h.feed.subs
  {
    F.PassOne(F.Next(h.feed, F.Switch(sid, L.Sendable(h.table, sid))), sid)
  }

  function Added(h: Hub, sid: int): seq<F.Made>
    requires sid in h.feed.subs
  {
    var made := FeedAfter(h, sid).made;
    if |h.feed.made| <= |made| then made[|h.feed.made|..] else []
  }

  function PassRows(h: Hub, sid: int): seq<L.Delivery>
    requires sid in h.feed.subs
  {
    NewRows(Added(h, sid), h.table.now, |h.table.deliveries|)
  }

  function Next(h: Hub, step: Step, backoff: L.Backoff): Hub
    requires Enabled(h, step)
  {
    match step
    case Change(change) => h.(feed := F.Next(h.feed, change))
    case Subscribe(sid, org, wanted) =>
      Hub(F.Next(h.feed, F.Subscribe(sid, org, wanted)), L.Next(h.table, L.SwitchSub(sid, true, false), backoff))
    case Elapse(lapse) => Hub(F.Next(h.feed, F.Elapse(lapse)), L.Next(h.table, L.Tick(lapse), backoff))
    case Pass(sid) => Hub(FeedAfter(h, sid), L.Next(h.table, L.FanOut(PassRows(h, sid)), backoff))
    case Work(work) => h.(table := L.Next(h.table, work, backoff))
  }

  // ---------------------------------------------------------------- the two sides stay in step

  ghost predicate RowOf(row: L.Delivery, made: F.Made) {
    row.sub == made.sub && row.entity == made.entity && row.marker == made.marker
  }

  /** The deliveries are the ones fan-out made, in the order it made them. */
  ghost predicate Mirrors(table: L.State, made: seq<F.Made>) {
    |table.deliveries| == |made| && forall d :: 0 <= d < |made| ==> RowOf(table.deliveries[d], made[d])
  }

  ghost predicate Inv(h: Hub) {
    F.Sound(h.feed) && L.Sound(h.table) && Mirrors(h.table, h.feed.made)
  }

  /** What a step is to the deliveries. */
  function TableStep(h: Hub, step: Step): L.Step
    requires Enabled(h, step)
  {
    match step
    case Change(_) => L.Tick(0)
    case Subscribe(sid, _, _) => L.SwitchSub(sid, true, false)
    case Elapse(lapse) => L.Tick(lapse)
    case Pass(sid) => L.FanOut(PassRows(h, sid))
    case Work(work) => work
  }

  /** Work on the deliveries changes neither which there are nor what they are of. */
  lemma WorkMirrors(s: L.State, work: L.Step, backoff: L.Backoff, made: seq<F.Made>)
    requires L.Enabled(s, work) && !work.FanOut? && Mirrors(s, made)
    ensures Mirrors(L.Next(s, work, backoff), made)
  {
    if work.ClaimDue? {
      L.ClaimAllExact(s, work.chosen, work.started);
    }
  }

  lemma PassExtends(h: Hub, sid: int)
    requires F.Sound(h.feed) && sid in h.feed.subs
    ensures F.Sound(FeedAfter(h, sid)) && FeedAfter(h, sid).made == h.feed.made + Added(h, sid)
    ensures forall i, j :: 0 <= i < |h.feed.made| && 0 <= j < |Added(h, sid)| && h.feed.made[i].sub == Added(h, sid)[j].sub ==>
              h.feed.made[i].marker < Added(h, sid)[j].marker
  {
    var f := F.Next(h.feed, F.Switch(sid, L.Sendable(h.table, sid)));
    F.StepSound(h.feed, F.Switch(sid, L.Sendable(h.table, sid)));
    F.PassSound(f, sid);
    F.PassAppends(f, sid);
    var added := Added(h, sid);
    forall i, j | 0 <= i < |f.made| && 0 <= j < |added| && f.made[i].sub == added[j].sub ensures f.made[i].marker < added[j].marker {
      assert F.PassOne(f, sid).made[|f.made| + j] == added[j];
      F.PassMakesLargerMarkers(f, sid, i, |f.made| + j);
    }
  }

  /** What fan-out makes is fresh and in marker order for every subscription, so the order of deliveries rests on no
      assumption about it. */
  lemma PassInOrder(h: Hub, sid: int, sub: int)
    requires Inv(h) && sid in h.feed.subs
    ensures L.Enabled(h.table, L.FanOut(PassRows(h, sid))) && L.InMarkerOrder(h.table, PassRows(h, sid), sub)
    ensures Mirrors(h.table.(deliveries := h.table.deliveries + PassRows(h, sid)), h.feed.made + Added(h, sid))
  {
    PassExtends(h, sid);
    RowsMirror(h.table, h.feed.made, Added(h, sid), sub);
  }

  lemma RowsMirror(table: L.State, made: seq<F.Made>, added: seq<F.Made>, sub: int)
    requires Mirrors(table, made)
    requires forall i, j :: 0 <= i < |made| && 0 <= j < |added| && made[i].sub == added[j].sub ==> made[i].marker < added[j].marker
    ensures var rows := NewRows(added, table.now, |table.deliveries|);
            && (forall row :: row in rows ==> L.Fresh(row, table.now)) && L.InMarkerOrder(table, rows, sub)
            && Mirrors(table.(deliveries := table.deliveries + rows), made + added)
  {
    var rows := NewRows(added, table.now, |table.deliveries|);
    assert forall k :: 0 <= k < |rows| ==> RowOf(rows[k], added[k]);
    assert forall d :: 0 <= d < |made| ==> RowOf(table.deliveries[d], made[d]);
  }

  /** Every step of the two together is a step of the deliveries. */
  lemma StepKeeps(h: Hub, step: Step, backoff: L.Backoff)
    requires Inv(h) && Enabled(h, step)
    ensures L.Enabled(h.table, TableStep(h, step)) && Next(h, step, backoff).table == L.Next(h.table, TableStep(h, step), backoff)
    ensures Inv(Next(h, step, backoff))
  {
    if step.Pass? {
      PassExtends(h, step.sid);
      PassInOrder(h, step.sid, 0);
    } else {
      if step.Change? {
        F.StepSound(h.feed, step.change);
      } else if step.Subscribe? {
        F.StepSound(h.feed, F.Subscribe(step.sid, step.org, step.wanted));
      } else if step.Elapse? {
        F.StepSound(h.feed, F.Elapse(step.lapse));
      }
      WorkMirrors(h.table, TableStep(h, step), backoff, h.feed.made);
    }
    L.StepSound(h.table, TableStep(h, step), backoff);
  }

  // ---------------------------------------------------------------- runs

  function Start(now: int, waits: bool): Hub {
    Hub(F.Start(now, waits), L.Start(now, map[]))
  }

  ghost predicate Run(trace: seq<Hub>, steps: seq<Step>, backoff: L.Backoff) {
    && |trace| == |steps| + 1 && trace[0] == Start(trace[0].feed.now, trace[0].feed.waits)
    && forall k :: 0 <= k < |steps| ==> Enabled(trace[k], steps[k]) && trace[k + 1] == Next(trace[k], steps[k], backoff)
  }

  lemma {:induction false} RunKeeps(trace: seq<Hub>, steps: seq<Step>, backoff: L.Backoff, k: nat)
    requires Run(trace, steps, backoff) && k < |trace|
    ensures Inv(trace[k])
  {
    if k > 0 {
      RunKeeps(trace, steps, backoff, k - 1);
      StepKeeps(trace[k - 1], steps[k - 1], backoff);
    }
  }

  function Tables(trace: seq<Hub>): seq<L.State> {
    seq(|trace|, i requires 0 <= i < |trace| => trace[i].table)
  }

  function TableSteps(trace: seq<Hub>, steps: seq<Step>): seq<L.Step>
    requires |steps| <= |trace| && forall i :: 0 <= i < |steps| ==> Enabled(trace[i], steps[i])
  {
    seq(|steps|, i requires 0 <= i < |steps| => TableStep(trace[i], steps[i]))
  }

  /** So all that Lease.dfy says of every run holds here. */
  lemma TablesRun(trace: seq<Hub>, steps: seq<Step>, backoff: L.Backoff)
    requires Run(trace, steps, backoff)
    ensures L.Run(Tables(trace), TableSteps(trace, steps), backoff)
  {
    forall k | 0 <= k < |steps|
      ensures L.Enabled(trace[k].table, TableStep(trace[k], steps[k]))
      ensures trace[k + 1].table == L.Next(trace[k].table, TableStep(trace[k], steps[k]), backoff)
    {
      RunKeeps(trace, steps, backoff, k);
      StepKeeps(trace[k], steps[k], backoff);
    }
  }

  /** Step i redelivered e when d had been claimed, and e has not ended since. */
  ghost predicate RedeliveredSince(trace: seq<Hub>, steps: seq<Step>, d: int, e: int, i: int, k: int) {
    && 0 <= i < k < |trace| == |steps| + 1 && steps[i] == Work(L.Redeliver(e)) && L.Claimed(trace[i].table, d)
    && forall j :: i < j < k ==> !(steps[j].Work? && L.Settles(trace[j].table, steps[j].work, e))
  }

  /** In every run of the feed and the deliveries together: of two changes to one row for one subscription, with the
      later claimed, the earlier is pending exactly when it was redelivered after the later had been claimed and has
      not ended since. Otherwise it has succeeded or failed for good. */
  lemma ChangesArriveInOrder(trace: seq<Hub>, steps: seq<Step>, backoff: L.Backoff, k: nat, d: int, e: int)
    requires Run(trace, steps, backoff) && k < |trace| && L.Behind(trace[k].table, d, e) && L.Claimed(trace[k].table, d)
    ensures trace[k].table.deliveries[e].status.Pending? <==> exists i :: RedeliveredSince(trace, steps, d, e, i, k)
  {
    TablesRun(trace, steps, backoff);
    var tables, did := Tables(trace), TableSteps(trace, steps);
    forall i | 0 <= i < k && did[i].FanOut? ensures L.InMarkerOrder(tables[i], did[i].made, tables[k].deliveries[d].sub) {
      RunKeeps(trace, steps, backoff, i);
      PassInOrder(trace[i], steps[i].sid, tables[k].deliveries[d].sub);
    }
    L.RowsArriveInOrder(tables, did, backoff, k, d, e);
    forall i ensures L.RedeliveredSince(tables, did, d, e, i, k) <==> RedeliveredSince(trace, steps, d, e, i, k) {
      SameRedelivery(trace, steps, d, e, i, k);
    }
  }

  lemma SameRedelivery(trace: seq<Hub>, steps: seq<Step>, d: int, e: int, i: int, k: int)
    requires |trace| == |steps| + 1 && forall j :: 0 <= j < |steps| ==> Enabled(trace[j], steps[j])
    ensures L.RedeliveredSince(Tables(trace), TableSteps(trace, steps), d, e, i, k) <==> RedeliveredSince(trace, steps, d, e, i, k)
  {
    var tables, did := Tables(trace), TableSteps(trace, steps);
    assert forall j :: 0 <= j < |steps| ==> tables[j] == trace[j].table && did[j] == TableStep(trace[j], steps[j]);
    assert forall j :: 0 <= j < |steps| ==>
      (L.Settles(tables[j], did[j], e) <==> steps[j].Work? && L.Settles(trace[j].table, steps[j].work, e));
  }

  // ---------------------------------------------------------------- nothing skipped

  predicate Timely(h: Hub, step: Step, m: F.Marker) {
    match step
    case Elapse(lapse) => F.Timely(h.feed, F.Elapse(lapse), m)
    case Pass(sid) => F.Timely(h.feed, F.Pass(sid), m)
    case _ => true
  }

  lemma FeedKeeps(h: Hub, step: Step, backoff: L.Backoff, m: F.Marker)
    requires F.Inv(h.feed, m) && Enabled(h, step) && Timely(h, step, m)
    ensures F.Inv(Next(h, step, backoff).feed, m)
  {
    match step
    case Change(change) => F.StepKeeps(h.feed, change, m);
    case Subscribe(sid, org, wanted) => F.StepKeeps(h.feed, F.Subscribe(sid, org, wanted), m);
    case Elapse(lapse) => F.StepKeeps(h.feed, F.Elapse(lapse), m);
    case Pass(sid) =>
      F.StepKeeps(h.feed, F.Switch(sid, L.Sendable(h.table, sid)), m);
      F.PassKeeps(F.Next(h.feed, F.Switch(sid, L.Sendable(h.table, sid))), sid, m);
    case Work(work) =>
  }

  lemma {:induction false} FeedRunKeeps(trace: seq<Hub>, steps: seq<Step>, backoff: L.Backoff, k: nat, m: F.Marker)
    requires Run(trace, steps, backoff) && k < |trace| && forall i :: 0 <= i < k ==> Timely(trace[i], steps[i], m)
    ensures F.Inv(trace[k].feed, m)
  {
    if k > 0 {
      FeedRunKeeps(trace, steps, backoff, k - 1, m);
      FeedKeeps(trace[k - 1], steps[k - 1], backoff, m);
    }
  }

  /** In every run, once a delivery is claimed: an earlier wanted change to its row since the subscription began, whose
      own transaction was timely, has a delivery, and it is pending only if it was redelivered since. */
  lemma NothingEarlierIsMissing(trace: seq<Hub>, steps: seq<Step>, backoff: L.Backoff, k: nat, d: int, m: F.Marker) returns (e: int)
    requires Run(trace, steps, backoff) && k < |trace| && forall i :: 0 <= i < k ==> Timely(trace[i], steps[i], m)
    requires 0 <= d < |trace[k].table.deliveries| && L.Claimed(trace[k].table, d)
    requires var row := trace[k].table.deliveries[d];
      && row.sub in trace[k].feed.subs && m in trace[k].feed.committed && m.org == trace[k].feed.subs[row.sub].org
      && m.event in trace[k].feed.subs[row.sub].wanted && m.entity == row.entity
      && trace[k].feed.subs[row.sub].start < m.id < row.marker
    ensures 0 <= e < |trace[k].table.deliveries|
    ensures RowOf(trace[k].table.deliveries[e], F.Made(trace[k].table.deliveries[d].sub, m.id, m.entity))
    ensures trace[k].table.deliveries[e].status.Pending? <==> exists i :: RedeliveredSince(trace, steps, d, e, i, k)
  {
    RunKeeps(trace, steps, backoff, k);
    FeedRunKeeps(trace, steps, backoff, k, m);
    e := MadeAlready(trace[k], d, m);
    assert L.Behind(trace[k].table, d, e);
    ChangesArriveInOrder(trace, steps, backoff, k, d, e);
  }

  lemma MadeAlready(h: Hub, d: int, m: F.Marker) returns (e: int)
    requires F.Inv(h.feed, m) && Mirrors(h.table, h.feed.made) && 0 <= d < |h.feed.made| && h.feed.made[d].sub in h.feed.subs
    requires var sub := h.feed.subs[h.feed.made[d].sub];
      m in h.feed.committed && m.org == sub.org && m.event in sub.wanted && sub.start < m.id < h.feed.made[d].marker
    ensures 0 <= e < |h.feed.made| && h.feed.made[e] == F.Made(h.feed.made[d].sub, m.id, m.entity)
  {
    var sid := h.feed.made[d].sub;
    assert h.feed.made[d] in h.feed.made;
    assert F.IsOwed(h.feed, h.feed.made[d]);
    assert F.Owed(h.feed, sid, m);
    e :| 0 <= e < |h.feed.made| && h.feed.made[e] == F.Made(sid, m.id, m.entity);
  }
}
