/** Turning change markers into deliveries (backend/app/services/webhooks.py: fan_out), with the
    transactions that write markers running beside it. A marker has its id from Insert on
    and is seen from Commit on, so ids may become visible out of order. */
module FanOut {
  import opened Sequences

  const GRACE: int := 5_000_000
  const FAN_OUT_BATCH: int := 500

  datatype EventType = ReservationCreated | ReservationUpdated | ResourceCreated | ResourceUpdated

  datatype Marker = Marker(id: int, at: int, org: int, entity: int, event: EventType)

  /** start is where the subscription's cursor was when it was made. */
  datatype Subscription = Subscription(org: int, start: int, cursor: int, wanted: set<EventType>, live: bool)

  datatype Made = Made(sub: int, marker: int, entity: int)

  /** The change feed with its open transactions. waits is PostgreSQL on the system clock; elsewhere
      one transaction writes at a time. */
  datatype Feed = Feed(now: int, nextId: int, committed: seq<Marker>, open: set<Marker>, subs: map<int, Subscription>,
                       made: seq<Made>, waits: bool)

  predicate IdLe(a: Marker, b: Marker) {
    a.id <= b.id
  }

  /** The markers a subscription has not seen, by id. */
  function Unseen(committed: seq<Marker>, sub: Subscription): seq<Marker> {
    SortBy(Filter(committed, (m: Marker) => sub.cursor < m.id && m.org == sub.org), IdLe)
  }

  predicate TooYoung(m: Marker, now: int, waits: bool) {
    waits && now - GRACE < m.at
  }

  /** From the front, up to the first too young to trust. */
  function Trusted(markers: seq<Marker>, now: int, waits: bool): seq<Marker> {
    if markers == [] || TooYoung(markers[0], now, waits) then []
    else [markers[0]] + Trusted(markers[1..], now, waits)
  }

  function FirstOnes(markers: seq<Marker>): seq<Marker> {
    if |markers| <= FAN_OUT_BATCH then markers else markers[..FAN_OUT_BATCH]
  }

  /** What one pass takes for one subscription. */
  function Taken(f: Feed, sub: Subscription): seq<Marker> {
    Trusted(FirstOnes(Unseen(f.committed, sub)), f.now, f.waits)
  }

  function MadeFor(sid: int, sub: Subscription, markers: seq<Marker>): seq<Made> {
    if markers == [] then []
    else
      var m := markers[|markers| - 1];
      var front := MadeFor(sid, sub, markers[..|markers| - 1]);
      if m.event in sub.wanted then front + [Made(sid, m.id, m.entity)] else front
  }

  /** One subscription's share of a pass: the deliveries and the cursor move together. */
  function PassOne(f: Feed, sid: int): Feed
    requires sid in f.subs
  {
    var sub := f.subs[sid];
    var markers := Taken(f, sub);
    if !sub.live || markers == [] then f else Moved(f, sid, markers)
  }

  function Moved(f: Feed, sid: int, markers: seq<Marker>): Feed
    requires sid in f.subs && markers != []
  {
    var sub := f.subs[sid];
    f.(made := f.made + MadeFor(sid, sub, markers), subs := f.subs[sid := sub.(cursor := markers[|markers| - 1].id)])
  }

  function LatestId(committed: seq<Marker>): int {
    if committed == [] then 0
    else
      var earlier := LatestId(committed[..|committed| - 1]);
      if earlier < committed[|committed| - 1].id then committed[|committed| - 1].id else earlier
  }

  datatype Step =
    | Insert(org: int, entity: int, event: EventType)
    | Commit(m: Marker)
    | Rollback(m: Marker)
    | Elapse(lapse: int)
    | Subscribe(sid: int, org: int, wanted: set<EventType>)
    | Switch(sid: int, live: bool)
    | Pass(sid: int)

  predicate Enabled(f: Feed, step: Step) {
    match step
    case Insert(_, _, _) => true
    case Commit(m) => m in f.open
    case Rollback(m) => m in f.open
    case Elapse(d) => 0 <= d
    case Subscribe(sid, _, _) => sid !in f.subs
    case Switch(sid, _) => sid in f.subs
    case Pass(sid) => sid in f.subs
  }

  function Next(f: Feed, step: Step): Feed
    requires Enabled(f, step)
  {
    match step
    case Insert(org, entity, event) => f.(nextId := f.nextId + 1, open := f.open + {Marker(f.nextId, f.now, org, entity, event)})
    case Commit(m) => f.(open := f.open - {m}, committed := f.committed + [m])
    case Rollback(m) => f.(open := f.open - {m})
    case Elapse(d) => f.(now := f.now + d)
    case Subscribe(sid, org, wanted) =>
      f.(subs := f.subs[sid := Subscription(org, LatestId(f.committed), LatestId(f.committed), wanted, true)])
    case Switch(sid, live) => f.(subs := f.subs[sid := f.subs[sid].(live := live)])
    case Pass(sid) => PassOne(f, sid)
  }

  // ---------------------------------------------------------------- what a pass takes

  lemma {:induction false} TrustedIsPrefix(markers: seq<Marker>, now: int, waits: bool)
    ensures Trusted(markers, now, waits) <= markers
    ensures forall m :: m in Trusted(markers, now, waits) ==> !TooYoung(m, now, waits)
    ensures |Trusted(markers, now, waits)| < |markers| ==> TooYoung(markers[|Trusted(markers, now, waits)|], now, waits)
  {
    if markers != [] && !TooYoung(markers[0], now, waits) {
      TrustedIsPrefix(markers[1..], now, waits);
    }
  }

  ghost predicate UniqueIds(markers: seq<Marker>) {
    forall i, j :: 0 <= i < j < |markers| ==> markers[i].id != markers[j].id
  }

  lemma {:induction false} FilterUnique(markers: seq<Marker>, p: Marker -> bool)
    requires UniqueIds(markers)
    ensures UniqueIds(Filter(markers, p)) && Distinct(Filter(markers, p))
  {
    if markers != [] {
      var front, last := markers[..|markers| - 1], markers[|markers| - 1];
      FilterUnique(front, p);
      var kept := Filter(front, p);
      forall i | 0 <= i < |kept| ensures kept[i].id != last.id {
        assert kept[i] in kept;
        var k :| 0 <= k < |front| && front[k] == kept[i];
        assert markers[k] == kept[i];
      }
    }
  }

  /** The unseen markers in strictly increasing id order, all of them. */
  lemma UnseenExact(committed: seq<Marker>, sub: Subscription)
    requires UniqueIds(committed)
    ensures forall m :: m in Unseen(committed, sub) <==> m in committed && sub.cursor < m.id && m.org == sub.org
    ensures forall i, j :: 0 <= i < j < |Unseen(committed, sub)| ==> Unseen(committed, sub)[i].id < Unseen(committed, sub)[j].id
  {
    var p := (m: Marker) => sub.cursor < m.id && m.org == sub.org;
    var kept := Filter(committed, p);
    FilterUnique(committed, p);
    SortByKeeps(kept, IdLe);
    var sorted := Unseen(committed, sub);
    PermutationDistinct(sorted, kept);
    forall i, j | 0 <= i < j < |sorted| ensures sorted[i].id < sorted[j].id {
      assert IdLe(sorted[i], sorted[j]) && sorted[i] != sorted[j];
      assert sorted[i] in kept && sorted[j] in kept;
    }
  }

  /** In id order, every unseen marker up to the last one taken, and none too young. */
  ghost predicate RightlyTaken(f: Feed, sub: Subscription, taken: seq<Marker>) {
    && (forall m :: m in taken ==> m in f.committed && sub.cursor < m.id && m.org == sub.org && !TooYoung(m, f.now, f.waits))
    && (forall i, j :: 0 <= i < j < |taken| ==> taken[i].id < taken[j].id)
    && (forall m :: taken != [] && m in f.committed && m.org == sub.org && sub.cursor < m.id <= taken[|taken| - 1].id ==> m in taken)
  }

  lemma TakenExact(f: Feed, sub: Subscription)
    requires UniqueIds(f.committed)
    ensures RightlyTaken(f, sub, Taken(f, sub))
  {
    var unseen, taken := Unseen(f.committed, sub), Taken(f, sub);
    UnseenExact(f.committed, sub);
    TrustedIsPrefix(FirstOnes(unseen), f.now, f.waits);
    PrefixTaken(f, sub, unseen, taken);
  }

  lemma PrefixTaken(f: Feed, sub: Subscription, unseen: seq<Marker>, taken: seq<Marker>)
    requires forall m :: m in unseen <==> m in f.committed && sub.cursor < m.id && m.org == sub.org
    requires forall i, j :: 0 <= i < j < |unseen| ==> unseen[i].id < unseen[j].id
    requires taken <= unseen && forall m :: m in taken ==> !TooYoung(m, f.now, f.waits)
    ensures RightlyTaken(f, sub, taken)
  {
    assert forall i :: 0 <= i < |taken| ==> taken[i] == unseen[i] && unseen[i] in unseen;
    forall m | taken != [] && m in f.committed && m.org == sub.org && sub.cursor < m.id <= taken[|taken| - 1].id ensures m in taken {
      assert m in unseen;
      var k :| 0 <= k < |unseen| && unseen[k] == m;
      assert k < |taken|;
      assert taken[k] == m;
    }
  }

  /** And nothing is left that could have been taken: behind a full batch, or behind a marker of the subscription's
      organization less than five seconds old. */
  lemma LeftForAReason(f: Feed, sub: Subscription, m: Marker)
    requires UniqueIds(f.committed) && m in f.committed && m.org == sub.org && sub.cursor < m.id && m !in Taken(f, sub)
    ensures || |Taken(f, sub)| == 500
            || (f.waits && exists n :: n in f.committed && n.org == sub.org && sub.cursor < n.id <= m.id && f.now < n.at + 5_000_000)
  {
    var unseen, taken := Unseen(f.committed, sub), Taken(f, sub);
    UnseenExact(f.committed, sub);
    TrustedIsPrefix(FirstOnes(unseen), f.now, f.waits);
    var k :| 0 <= k < |unseen| && unseen[k] == m;
    if |taken| < |FirstOnes(unseen)| {
      var n := unseen[|taken|];
      NotAmongFirst(unseen, taken, k);
      assert n in unseen && TooYoung(n, f.now, f.waits);
      assert n.id <= m.id;
    } else {
      NotAmongFirst(unseen, taken, k);
    }
  }

  lemma NotAmongFirst(all: seq<Marker>, front: seq<Marker>, k: nat)
    requires front <= all && k < |all| && all[k] !in front
    ensures |front| <= k
  {
    assert forall i :: 0 <= i < |front| ==> front[i] == all[i] && front[i] in front;
  }

  lemma {:induction false} InMadeFor(sid: int, sub: Subscription, markers: seq<Marker>, x: Made)
    ensures x in MadeFor(sid, sub, markers)
       <==> exists m :: m in markers && m.event in sub.wanted && x == Made(sid, m.id, m.entity)
  {
    if markers != [] {
      InMadeFor(sid, sub, markers[..|markers| - 1], x);
      assert forall m :: m in markers <==> m in markers[..|markers| - 1] || m == markers[|markers| - 1];
    }
  }

  /** Deliveries come out in marker order, each marker once. */
  lemma {:induction false} MadeForInOrder(sid: int, sub: Subscription, markers: seq<Marker>)
    requires forall i, j :: 0 <= i < j < |markers| ==> markers[i].id < markers[j].id
    ensures forall i, j :: 0 <= i < j < |MadeFor(sid, sub, markers)| ==> MadeFor(sid, sub, markers)[i].marker < MadeFor(sid, sub, markers)[j].marker
  {
    if markers != [] {
      var front, last := markers[..|markers| - 1], markers[|markers| - 1];
      MadeForInOrder(sid, sub, front);
      var made := MadeFor(sid, sub, front);
      forall i | 0 <= i < |made| ensures made[i].marker < last.id {
        assert made[i] in made;
        InMadeFor(sid, sub, front, made[i]);
        var m :| m in front && made[i] == Made(sid, m.id, m.entity);
        var k :| 0 <= k < |front| && front[k] == m;
        assert markers[k] == m;
      }
    }
  }

  // ---------------------------------------------------------------- what every run keeps

  ghost predicate IdsSound(f: Feed) {
    && UniqueIds(f.committed)
    && (forall m :: m in f.committed ==> 0 < m.id < f.nextId)
    && (forall m :: m in f.open ==> 0 < m.id < f.nextId && forall c :: c in f.committed ==> c.id != m.id)
    && (forall m, n :: m in f.open && n in f.open && m.id == n.id ==> m == n)
    && 0 < f.nextId
  }

  ghost predicate CursorsSound(f: Feed) {
    forall sid :: sid in f.subs ==> 0 <= f.subs[sid].start <= f.subs[sid].cursor < f.nextId
  }

  /** A marker a subscription has been told about: its organization's, wanted, past where it started
      and not past its cursor. */
  ghost predicate Owed(f: Feed, sid: int, m: Marker)
    requires sid in f.subs
  {
    && m in f.committed && m.org == f.subs[sid].org && m.event in f.subs[sid].wanted
    && f.subs[sid].start < m.id <= f.subs[sid].cursor
  }

  ghost predicate IsOwed(f: Feed, x: Made) {
    x.sub in f.subs && exists m :: Owed(f, x.sub, m) && x == Made(x.sub, m.id, m.entity)
  }

  /** Nothing is made that is not owed, and nothing twice. */
  ghost predicate RightlyMade(f: Feed) {
    && (forall x :: x in f.made ==> IsOwed(f, x))
    && (forall i, j :: 0 <= i < j < |f.made| ==> f.made[i].sub != f.made[j].sub || f.made[i].marker != f.made[j].marker)
  }

  ghost predicate Sound(f: Feed) {
    IdsSound(f) && CursorsSound(f) && RightlyMade(f)
  }

  /** Markers stay committed, subscriptions stay as they were made, and cursors only move on. */
  ghost predicate Grows(f: Feed, after: Feed) {
    && (forall m :: m in f.committed ==> m in after.committed)
    && (forall sid :: sid in f.subs ==>
          && sid in after.subs && after.subs[sid].cursor >= f.subs[sid].cursor
          && after.subs[sid].(cursor := f.subs[sid].cursor, live := f.subs[sid].live) == f.subs[sid])
  }

  lemma {:induction false} LatestIdBounds(committed: seq<Marker>)
    ensures 0 <= LatestId(committed)
    ensures forall m :: m in committed ==> m.id <= LatestId(committed)
    ensures LatestId(committed) == 0 || exists m :: m in committed && m.id == LatestId(committed)
  {
    if committed != [] {
      LatestIdBounds(committed[..|committed| - 1]);
      assert forall m :: m in committed <==> m in committed[..|committed| - 1] || m == committed[|committed| - 1];
      assert committed[|committed| - 1] in committed;
    }
  }

  /** What a pass adds for a subscription lies beyond everything it already has. */
  lemma LargerMarkers(f: Feed, sid: int, taken: seq<Marker>, i: int, j: int)
    requires sid in f.subs && RightlyTaken(f, f.subs[sid], taken)
    requires 0 <= i < |f.made| && 0 <= j < |MadeFor(sid, f.subs[sid], taken)|
    requires f.made[i].sub == sid ==> f.made[i].marker <= f.subs[sid].cursor
    ensures MadeFor(sid, f.subs[sid], taken)[j].sub == sid
    ensures f.made[i].sub == sid ==> f.made[i].marker < MadeFor(sid, f.subs[sid], taken)[j].marker
  {
    var added := MadeFor(sid, f.subs[sid], taken);
    assert added[j] in added;
    InMadeFor(sid, f.subs[sid], taken, added[j]);
  }

  lemma MadeUpToCursor(f: Feed, i: int)
    requires RightlyMade(f) && 0 <= i < |f.made|
    ensures f.made[i].sub in f.subs && f.made[i].marker <= f.subs[f.made[i].sub].cursor
  {
    assert f.made[i] in f.made;
    assert IsOwed(f, f.made[i]);
  }

  lemma MovedSound(f: Feed, sid: int, taken: seq<Marker>)
    requires Sound(f) && sid in f.subs && taken != [] && RightlyTaken(f, f.subs[sid], taken)
    ensures Sound(Moved(f, sid, taken))
  {
    var after := Moved(f, sid, taken);
    var added := MadeFor(sid, f.subs[sid], taken);
    forall x | x in after.made ensures IsOwed(after, x) {
      if x in f.made {
      } else {
        InMadeFor(sid, f.subs[sid], taken, x);
        var m :| m in taken && m.event in f.subs[sid].wanted && x == Made(sid, m.id, m.entity);
        assert Owed(after, sid, m);
      }
    }
    MadeForInOrder(sid, f.subs[sid], taken);
    forall i, j | 0 <= i < |f.made| && 0 <= j < |added| ensures f.made[i].sub != added[j].sub || f.made[i].marker != added[j].marker {
      MadeUpToCursor(f, i);
      LargerMarkers(f, sid, taken, i, j);
    }
    assert taken[|taken| - 1] in taken;
  }

  lemma PassSound(f: Feed, sid: int)
    requires Sound(f) && sid in f.subs
    ensures Sound(PassOne(f, sid)) && Grows(f, PassOne(f, sid))
  {
    TakenExact(f, f.subs[sid]);
    if f.subs[sid].live && Taken(f, f.subs[sid]) != [] {
      MovedSound(f, sid, Taken(f, f.subs[sid]));
    }
  }

  lemma OtherStepIds(f: Feed, step: Step)
    requires IdsSound(f) && CursorsSound(f) && Enabled(f, step) && !step.Pass?
    ensures IdsSound(Next(f, step)) && CursorsSound(Next(f, step)) && Grows(f, Next(f, step))
  {
    LatestIdBounds(f.committed);
  }

  /** However long a transaction stays open, and whenever fan-out runs. */
  lemma StepSound(f: Feed, step: Step)
    requires Sound(f) && Enabled(f, step)
    ensures Sound(Next(f, step)) && Grows(f, Next(f, step))
  {
    var after := Next(f, step);
    if step.Pass? {
      PassSound(f, step.sid);
    } else {
      OtherStepIds(f, step);
      forall x | x in after.made ensures IsOwed(after, x) {
      }
    }
  }

  // ---------------------------------------------------------------- runs

  function Start(now: int, waits: bool): Feed {
    Feed(now, 1, [], {}, map[], [], waits)
  }

  ghost predicate Run(trace: seq<Feed>, steps: seq<Step>) {
    && |trace| == |steps| + 1 && trace[0] == Start(trace[0].now, trace[0].waits)
    && forall k :: 0 <= k < |steps| ==> Enabled(trace[k], steps[k]) && trace[k + 1] == Next(trace[k], steps[k])
  }

  lemma {:induction false} RunSound(trace: seq<Feed>, steps: seq<Step>, k: nat)
    requires Run(trace, steps) && k < |trace|
    ensures Sound(trace[k])
  {
    if k > 0 {
      RunSound(trace, steps, k - 1);
      StepSound(trace[k - 1], steps[k - 1]);
    }
  }

  lemma {:induction false} StaysCommitted(trace: seq<Feed>, steps: seq<Step>, i: nat, k: nat, m: Marker)
    requires Run(trace, steps) && i <= k < |trace| && m in trace[i].committed
    ensures m in trace[k].committed
  {
    if i < k {
      StaysCommitted(trace, steps, i, k - 1, m);
    }
  }

  /** In every run whatever, no marker is delivered to a subscription twice, and none that is not its
      organization's, wanted, and between its start and its cursor. */
  lemma NeverTwice(trace: seq<Feed>, steps: seq<Step>, k: nat)
    requires Run(trace, steps) && k < |trace|
    ensures forall i, j :: 0 <= i < j < |trace[k].made| ==>
              trace[k].made[i].sub != trace[k].made[j].sub || trace[k].made[i].marker != trace[k].made[j].marker
    ensures forall x :: x in trace[k].made ==> IsOwed(trace[k], x)
  {
    RunSound(trace, steps, k);
  }

  lemma {:induction false} StartStays(trace: seq<Feed>, steps: seq<Step>, sid: int, i: nat, k: nat)
    requires Run(trace, steps) && i <= k < |trace| && sid in trace[i].subs
    ensures sid in trace[k].subs && trace[k].subs[sid].start == trace[i].subs[sid].start
  {
    if i < k {
      StartStays(trace, steps, sid, i, k - 1);
      RunSound(trace, steps, k - 1);
      StepSound(trace[k - 1], steps[k - 1]);
    }
  }

  /** A subscription is never told about anything committed before it was made. */
  lemma NothingFromBefore(trace: seq<Feed>, steps: seq<Step>, sid: int, org: int, wanted: set<EventType>, i: nat, k: nat, m: Marker, x: Made)
    requires Run(trace, steps) && i < k < |trace| && steps[i] == Subscribe(sid, org, wanted) && m in trace[i].committed
    requires x in trace[k].made && x.sub == sid
    ensures x.marker != m.id
  {
    LatestIdBounds(trace[i].committed);
    StartStays(trace, steps, sid, i + 1, k);
    NeverTwice(trace, steps, k);
    assert IsOwed(trace[k], x);
  }

  /** And is told about something only by a pass of its own while it is switched on. */
  lemma FedWhileLive(trace: seq<Feed>, steps: seq<Step>, k: nat, j: int)
    requires Run(trace, steps) && k + 1 < |trace| && |trace[k].made| <= j < |trace[k + 1].made|
    ensures var sid := trace[k + 1].made[j].sub;
            steps[k] == Pass(sid) && sid in trace[k].subs && trace[k].subs[sid].live
  {
    assert Enabled(trace[k], steps[k]) && trace[k + 1] == Next(trace[k], steps[k]);
    if steps[k].Pass? {
      PassAppends(trace[k], steps[k].sid);
      var added := MadeFor(steps[k].sid, trace[k].subs[steps[k].sid], Taken(trace[k], trace[k].subs[steps[k].sid]));
      var x := trace[k + 1].made[j];
      assert x in added;
      InMadeFor(steps[k].sid, trace[k].subs[steps[k].sid], Taken(trace[k], trace[k].subs[steps[k].sid]), x);
    }
  }

  /** A pass only appends, for its own subscription, and beyond every marker it already has. */
  lemma PassMakesLargerMarkers(f: Feed, sid: int, i: int, j: int)
    requires Sound(f) && sid in f.subs && 0 <= i < |f.made| <= j < |PassOne(f, sid).made|
    ensures PassOne(f, sid).made[i] == f.made[i] && PassOne(f, sid).made[j].sub == sid
    ensures f.made[i].sub == sid ==> f.made[i].marker < PassOne(f, sid).made[j].marker
  {
    MadeUpToCursor(f, i);
    PassBeyond(f, sid, i, j);
  }

  lemma PassBeyond(f: Feed, sid: int, i: int, j: int)
    requires UniqueIds(f.committed) && sid in f.subs && 0 <= i < |f.made| <= j < |PassOne(f, sid).made|
    requires f.made[i].sub == sid ==> f.made[i].marker <= f.subs[sid].cursor
    ensures PassOne(f, sid).made[i] == f.made[i] && PassOne(f, sid).made[j].sub == sid
    ensures f.made[i].sub == sid ==> f.made[i].marker < PassOne(f, sid).made[j].marker
  {
    TakenExact(f, f.subs[sid]);
    PassAppends(f, sid);
    LargerMarkers(f, sid, Taken(f, f.subs[sid]), i, j - |f.made|);
  }

  lemma PassAppends(f: Feed, sid: int)
    requires sid in f.subs
    ensures PassOne(f, sid).made == f.made + if f.subs[sid].live then MadeFor(sid, f.subs[sid], Taken(f, f.subs[sid])) else []
  {
  }

  // ---------------------------------------------------------------- which markers are passed over

  /** A pass moves the cursor past a marker exactly when it takes that marker or a later one. */
  lemma PassesIff(f: Feed, sid: int, m: Marker)
    requires Sound(f) && sid in f.subs && f.subs[sid].cursor < m.id
    ensures m.id <= PassOne(f, sid).subs[sid].cursor <==>
            f.subs[sid].live && exists t :: t in Taken(f, f.subs[sid]) && m.id <= t.id
  {
    var taken := Taken(f, f.subs[sid]);
    TakenExact(f, f.subs[sid]);
    forall t | t in taken ensures t.id <= taken[|taken| - 1].id {
    }
    assert taken != [] ==> taken[|taken| - 1] in taken;
  }

  /** The marker of a transaction that is still open is passed over exactly when a later one is taken. */
  lemma PassedOverIff(f: Feed, sid: int, m: Marker)
    requires Sound(f) && sid in f.subs && m in f.open && f.subs[sid].cursor < m.id
    ensures m.id <= PassOne(f, sid).subs[sid].cursor <==>
            f.subs[sid].live && exists t :: t in Taken(f, f.subs[sid]) && m.id < t.id
  {
    PassesIff(f, sid, m);
    TakenExact(f, f.subs[sid]);
    assert forall t :: t in Taken(f, f.subs[sid]) ==> t.id != m.id;
  }

  /** Step i moves the subscription's cursor past the marker. */
  ghost predicate PassesAt(trace: seq<Feed>, sid: int, m: Marker, i: int) {
    && 0 <= i < |trace| - 1 && sid in trace[i].subs && sid in trace[i + 1].subs
    && trace[i].subs[sid].cursor < m.id <= trace[i + 1].subs[sid].cursor
  }

  ghost predicate CommittedWhenPassed(trace: seq<Feed>, sid: int, m: Marker, i: int) {
    PassesAt(trace, sid, m, i) && m in trace[i].committed
  }

  /** A committed marker that this very step passes is taken by it. */
  lemma PassedIsMade(f: Feed, sid: int, m: Marker)
    requires Sound(f) && sid in f.subs && Owed(PassOne(f, sid), sid, m) && f.subs[sid].cursor < m.id
    ensures Made(sid, m.id, m.entity) in PassOne(f, sid).made
  {
    var taken := Taken(f, f.subs[sid]);
    TakenExact(f, f.subs[sid]);
    assert m in taken;
    InMadeFor(sid, f.subs[sid], taken, Made(sid, m.id, m.entity));
  }

  /** A pass makes nothing for a marker the cursor has already passed. */
  lemma PassedIsSettled(f: Feed, mover: int, sid: int, m: Marker)
    requires Sound(f) && mover in f.subs && sid in f.subs && m.id <= f.subs[sid].cursor
    ensures Made(sid, m.id, m.entity) in PassOne(f, mover).made <==> Made(sid, m.id, m.entity) in f.made
  {
    TakenExact(f, f.subs[mover]);
    PassAppends(f, mover);
    InMadeFor(mover, f.subs[mover], Taken(f, f.subs[mover]), Made(sid, m.id, m.entity));
  }

  lemma MadeUnchanged(f: Feed, step: Step, sid: int, m: Marker)
    requires Sound(f) && Enabled(f, step) && sid in f.subs && m.id <= f.subs[sid].cursor
    ensures Made(sid, m.id, m.entity) in Next(f, step).made <==> Made(sid, m.id, m.entity) in f.made
  {
    if step.Pass? {
      PassedIsSettled(f, step.sid, sid, m);
    }
  }

  lemma SubscribedBefore(f: Feed, step: Step, sid: int, m: Marker)
    requires Enabled(f, step) && sid in Next(f, step).subs && Owed(Next(f, step), sid, m)
    ensures sid in f.subs
  {
  }

  lemma PassedNow(f: Feed, step: Step, sid: int, m: Marker)
    requires Sound(f) && Enabled(f, step) && sid in f.subs && sid in Next(f, step).subs && Owed(Next(f, step), sid, m)
    requires f.subs[sid].cursor < m.id
    ensures Made(sid, m.id, m.entity) in Next(f, step).made && m in f.committed
  {
    PassedIsMade(f, sid, m);
  }

  lemma SettledBefore(f: Feed, step: Step, sid: int, m: Marker)
    requires Sound(f) && Enabled(f, step) && sid in f.subs && sid in Next(f, step).subs && Owed(Next(f, step), sid, m)
    requires m.id <= f.subs[sid].cursor
    ensures Made(sid, m.id, m.entity) in Next(f, step).made <==> Made(sid, m.id, m.entity) in f.made
    ensures m in f.committed ==> Owed(f, sid, m)
    ensures m !in f.committed ==> Made(sid, m.id, m.entity) !in f.made
  {
    StepSound(f, step);
    MadeUnchanged(f, step, sid, m);
  }

  lemma CommittedTooLate(trace: seq<Feed>, steps: seq<Step>, k: nat, sid: int, m: Marker)
    requires Run(trace, steps) && k < |trace| && m !in trace[k].committed
    ensures !InTime(trace, sid, m, k)
  {
    forall i | 0 <= i < k ensures !CommittedWhenPassed(trace, sid, m, i) {
      if m in trace[i].committed {
        StaysCommitted(trace, steps, i, k, m);
      }
    }
  }

  /** What the last step of a run did about a marker. */
  lemma OneStepBack(trace: seq<Feed>, steps: seq<Step>, k: nat, sid: int, m: Marker)
    requires Run(trace, steps) && k < |trace| && sid in trace[k].subs && Owed(trace[k], sid, m)
    ensures 0 < k && sid in trace[k - 1].subs
    ensures PassesAt(trace, sid, m, k - 1) ==>
              Made(sid, m.id, m.entity) in trace[k].made && CommittedWhenPassed(trace, sid, m, k - 1)
    ensures !PassesAt(trace, sid, m, k - 1) ==>
              && (Made(sid, m.id, m.entity) in trace[k].made <==> Made(sid, m.id, m.entity) in trace[k - 1].made)
              && (m in trace[k - 1].committed ==> Owed(trace[k - 1], sid, m))
              && (m !in trace[k - 1].committed ==> Made(sid, m.id, m.entity) !in trace[k - 1].made)
  {
    assert k > 0;
    RunSound(trace, steps, k - 1);
    var f, step := trace[k - 1], steps[k - 1];
    SubscribedBefore(f, step, sid, m);
    if f.subs[sid].cursor < m.id {
      PassedNow(f, step, sid, m);
    } else {
      SettledBefore(f, step, sid, m);
    }
  }

  /** Some pass of the run moved the cursor past the marker when it had committed. */
  ghost predicate InTime(trace: seq<Feed>, sid: int, m: Marker, k: int) {
    exists i :: i < k && CommittedWhenPassed(trace, sid, m, i)
  }

  /** In every run, however long transactions stay open: a marker between a subscription's start and its
      cursor has its delivery exactly when it was committed by the pass that moved the cursor past it. */
  lemma {:induction false} DeliveredIffCommittedWhenPassed(trace: seq<Feed>, steps: seq<Step>, k: nat, sid: int, m: Marker)
    requires Run(trace, steps) && k < |trace| && sid in trace[k].subs && Owed(trace[k], sid, m)
    ensures Made(sid, m.id, m.entity) in trace[k].made <==> InTime(trace, sid, m, k)
  {
    OneStepBack(trace, steps, k, sid, m);
    if !PassesAt(trace, sid, m, k - 1) {
      if m in trace[k - 1].committed {
        DeliveredIffCommittedWhenPassed(trace, steps, k - 1, sid, m);
      } else {
        CommittedTooLate(trace, steps, k - 1, sid, m);
      }
    }
  }

  // ---------------------------------------------------------------- when a marker is not lost

  /** The marker's transaction commits within the grace where fan-out waits for it, and is not open while fan-out
      runs where it does not. */
  predicate Timely(f: Feed, step: Step, m: Marker) {
    match step
    case Elapse(d) => f.waits && m in f.open ==> f.now + d < m.at + 5_000_000
    case Pass(_) => f.waits || m !in f.open
    case _ => true
  }

  ghost predicate Known(f: Feed, m: Marker) {
    m in f.committed || m in f.open
  }

  /** Ids follow timestamps. */
  ghost predicate TimesSound(f: Feed) {
    && (forall m, n :: Known(f, m) && Known(f, n) && m.id < n.id ==> m.at <= n.at)
    && (forall m :: Known(f, m) ==> m.at <= f.now)
  }

  /** While its transaction is open the marker is inside the grace and ahead of every cursor it could be of interest
      to, and once it is owed its delivery is made. */
  ghost predicate NotLost(f: Feed, m: Marker) {
    && (f.waits && m in f.open ==> f.now < m.at + GRACE)
    && (forall sid :: sid in f.subs && m in f.open && m.org == f.subs[sid].org ==> !(f.subs[sid].start < m.id <= f.subs[sid].cursor))
    && (forall sid :: sid in f.subs && Owed(f, sid, m) ==> Made(sid, m.id, m.entity) in f.made)
  }

  ghost predicate Inv(f: Feed, m: Marker) {
    Sound(f) && TimesSound(f) && NotLost(f, m)
  }

  /** A pass does not move its cursor past the open marker: what it would take to is past the grace, and a marker
      with a lower id began no later, so it has committed by now. */
  lemma LeavesItAhead(f: Feed, sid: int, m: Marker)
    requires Inv(f, m) && sid in f.subs && Timely(f, Pass(sid), m) && m in f.open && m.org == f.subs[sid].org
    ensures !(f.subs[sid].start < m.id <= PassOne(f, sid).subs[sid].cursor)
  {
    TakenExact(f, f.subs[sid]);
    if f.subs[sid].cursor < m.id {
      PassedOverIff(f, sid, m);
      forall t | t in Taken(f, f.subs[sid]) ensures t.id <= m.id {
        assert Known(f, t) && Known(f, m);
      }
    }
  }

  lemma PassMakesIt(f: Feed, mover: int, m: Marker)
    requires Sound(f) && NotLost(f, m) && mover in f.subs
    ensures forall sid :: sid in f.subs && Owed(PassOne(f, mover), sid, m) ==> Made(sid, m.id, m.entity) in PassOne(f, mover).made
  {
    var after := PassOne(f, mover);
    PassSound(f, mover);
    forall sid | sid in f.subs && Owed(after, sid, m) ensures Made(sid, m.id, m.entity) in after.made {
      if f.subs[sid].cursor < m.id {
        PassedIsMade(f, sid, m);
      } else {
        assert Owed(f, sid, m);
        PassedIsSettled(f, mover, sid, m);
      }
    }
  }

  lemma PassKeeps(f: Feed, sid: int, m: Marker)
    requires Inv(f, m) && sid in f.subs && Timely(f, Pass(sid), m)
    ensures Inv(PassOne(f, sid), m)
  {
    PassSound(f, sid);
    PassMakesIt(f, sid, m);
    if m in f.open && m.org == f.subs[sid].org {
      LeavesItAhead(f, sid, m);
    }
    assert forall n :: Known(PassOne(f, sid), n) <==> Known(f, n);
  }

  lemma OtherStepKeeps(f: Feed, step: Step, m: Marker)
    requires Inv(f, m) && Enabled(f, step) && Timely(f, step, m) && !step.Pass?
    ensures TimesSound(Next(f, step)) && NotLost(Next(f, step), m)
  {
    if step.Insert? {
      InsertKeeps(f, step.org, step.entity, step.event, m);
    } else {
      assert forall n :: Known(Next(f, step), n) ==> Known(f, n);
      OtherNotLost(f, step, m);
    }
  }

  lemma OtherNotLost(f: Feed, step: Step, m: Marker)
    requires IdsSound(f) && NotLost(f, m) && Enabled(f, step) && Timely(f, step, m) && !step.Pass? && !step.Insert?
    ensures NotLost(Next(f, step), m)
  {
    LatestIdBounds(f.committed);
    forall sid | sid in Next(f, step).subs && Owed(Next(f, step), sid, m) ensures Made(sid, m.id, m.entity) in f.made {
      assert sid in f.subs && Owed(f, sid, m);
    }
  }

  lemma InsertKeeps(f: Feed, org: int, entity: int, event: EventType, m: Marker)
    requires Inv(f, m)
    ensures TimesSound(Next(f, Insert(org, entity, event))) && NotLost(Next(f, Insert(org, entity, event)), m)
  {
    var after := Next(f, Insert(org, entity, event));
    assert forall n :: Known(after, n) <==> Known(f, n) || n == Marker(f.nextId, f.now, org, entity, event);
  }

  lemma StepKeeps(f: Feed, step: Step, m: Marker)
    requires Inv(f, m) && Enabled(f, step) && Timely(f, step, m)
    ensures Inv(Next(f, step), m)
  {
    if step.Pass? {
      PassKeeps(f, step.sid, m);
    } else {
      StepSound(f, step);
      OtherStepKeeps(f, step, m);
    }
  }

  lemma {:induction false} RunKeeps(trace: seq<Feed>, steps: seq<Step>, k: nat, m: Marker)
    requires Run(trace, steps) && k < |trace| && forall i :: 0 <= i < k ==> Timely(trace[i], steps[i], m)
    ensures Inv(trace[k], m)
  {
    if k > 0 {
      RunKeeps(trace, steps, k - 1, m);
      StepKeeps(trace[k - 1], steps[k - 1], m);
    }
  }

  /** In every run, whatever other transactions do: a wanted marker of its organization between where a subscription
      started and its cursor, whose own transaction was timely, has exactly one delivery; and while that transaction
      is open no such cursor has passed it. */
  lemma ExactlyOnceAndLossless(trace: seq<Feed>, steps: seq<Step>, k: nat, sid: int, m: Marker)
    requires Run(trace, steps) && k < |trace| && sid in trace[k].subs && forall i :: 0 <= i < k ==> Timely(trace[i], steps[i], m)
    ensures Owed(trace[k], sid, m) ==> Made(sid, m.id, m.entity) in trace[k].made
    ensures forall x :: x in trace[k].made ==> IsOwed(trace[k], x)
    ensures forall i, j :: 0 <= i < j < |trace[k].made| ==>
              trace[k].made[i].sub != trace[k].made[j].sub || trace[k].made[i].marker != trace[k].made[j].marker
    ensures m in trace[k].open && m.org == trace[k].subs[sid].org ==> m.id <= trace[k].subs[sid].start || trace[k].subs[sid].cursor < m.id
  {
    RunKeeps(trace, steps, k, m);
  }

  // ---------------------------------------------------------------- a transaction open past the grace

  const Late: Marker := Marker(1, 0, 7, 1, ResourceCreated)
  const Early: Marker := Marker(2, 0, 7, 2, ResourceCreated)

  const Reader: map<int, Subscription> := map[1 := Subscription(7, 0, 0, {ResourceCreated}, true)]

  lemma Extended(trace: seq<Feed>, steps: seq<Step>, step: Step, after: Feed)
    requires Run(trace, steps) && Enabled(trace[|trace| - 1], step) && Next(trace[|trace| - 1], step) == after
    ensures Run(trace + [after], steps + [step])
  {
    var trace', steps' := trace + [after], steps + [step];
    forall k | 0 <= k < |steps'| ensures Enabled(trace'[k], steps'[k]) && trace'[k + 1] == Next(trace'[k], steps'[k]) {
      assert k < |steps| ==> steps'[k] == steps[k] && trace'[k] == trace[k] && trace'[k + 1] == trace[k + 1];
    }
  }

  /** Two markers written together; the one with the lower id is still uncommitted some time later. */
  function Overdue(now: int): Feed {
    Feed(now, 3, [Early], {Late}, Reader, [], true)
  }

  lemma OverdueIsReached() returns (trace: seq<Feed>, steps: seq<Step>)
    ensures Run(trace, steps) && trace[|trace| - 1] == Overdue(GRACE)
  {
    var s0 := Start(0, true);
    var s1 := s0.(subs := Reader);
    var s2 := s1.(nextId := 2, open := {Late});
    var s3 := s2.(nextId := 3, open := {Late, Early});
    trace, steps := [s0], [];
    Extended(trace, steps, Subscribe(1, 7, {ResourceCreated}), s1);
    trace, steps := trace + [s1], steps + [Subscribe(1, 7, {ResourceCreated})];
    Extended(trace, steps, Insert(7, 1, ResourceCreated), s2);
    trace, steps := trace + [s2], steps + [Insert(7, 1, ResourceCreated)];
    Extended(trace, steps, Insert(7, 2, ResourceCreated), s3);
    trace, steps := trace + [s3], steps + [Insert(7, 2, ResourceCreated)];
    assert s3.open - {Early} == {Late};
    Extended(trace, steps, Commit(Early), Overdue(0));
    trace, steps := trace + [Overdue(0)], steps + [Commit(Early)];
    Extended(trace, steps, Elapse(GRACE), Overdue(GRACE));
    trace, steps := trace + [Overdue(GRACE)], steps + [Elapse(GRACE)];
  }

  lemma OverdueTaken()
    ensures Taken(Overdue(GRACE), Overdue(GRACE).subs[1]) == [Early]
  {
    var sub := Overdue(GRACE).subs[1];
    UnseenExact([Early], sub);
    OnlyOne(Unseen([Early], sub), Early);
    OneTrusted(Early, GRACE);
  }

  lemma OneTrusted(m: Marker, now: int)
    requires !TooYoung(m, now, true)
    ensures Trusted(FirstOnes([m]), now, true) == [m]
  {
    assert [m][1..] == [];
    assert Trusted([], now, true) == [];
  }

  lemma OnlyOne(s: seq<Marker>, x: Marker)
    requires forall m :: m in s <==> m == x
    requires forall i, j :: 0 <= i < j < |s| ==> s[i].id < s[j].id
    ensures s == [x]
  {
    assert x in s;
    assert forall i :: 0 <= i < |s| ==> s[i] in s;
    assert |s| > 1 ==> s[0].id < s[1].id;
  }

  /** A run in which a transaction is held open past the grace: its marker commits behind the cursor and
      is never delivered. */
  lemma LateCommitIsLost() returns (trace: seq<Feed>, steps: seq<Step>)
    ensures Run(trace, steps)
    ensures var f := trace[|trace| - 1]; 1 in f.subs && Owed(f, 1, Late) && Made(1, 1, 1) !in f.made
  {
    trace, steps := OverdueIsReached();
    OverdueTaken();
    var passed := PassOne(Overdue(GRACE), 1);
    Extended(trace, steps, Pass(1), passed);
    trace, steps := trace + [passed], steps + [Pass(1)];
    InMadeFor(1, Overdue(GRACE).subs[1], [Early], Made(1, 1, 1));
    var after := Next(passed, Commit(Late));
    Extended(trace, steps, Commit(Late), after);
    trace, steps := trace + [after], steps + [Commit(Late)];
    assert after.committed == [Early, Late] && Late in after.committed;
  }
}
