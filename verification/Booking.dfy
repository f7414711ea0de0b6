/** Schedule safety over bookings: what _problem lets through keeps the schedule sound, and so does
    every completed walk, every booking and every run of bookings and cancellations
    (backend/app/services/requirements.py, with the booking route of
    backend/app/api/v1/endpoints/resources.py). */
module Booking {
  import opened Sequences
  import opened Time
  import opened Recurrence
  import opened Tables
  import opened Pool
  import opened Availability
  import opened Requirements
  import opened Walk
  import opened Agreement
  import Accounts
  import Choices

  // ---------------------------------------------------------------- the invariant

  ghost predicate PairwiseApart(holds: seq<Reservation>) {
    forall i, j :: 0 <= i < j < |holds| ==> !Overlaps(WindowSpan(holds[i].window), WindowSpan(holds[j].window))
  }

  /** No booking of the resource sits on a slot's date or a generated day. */
  ghost predicate ClearOfTimetable(db: Schedule, resource: int, holds: seq<Reservation>) {
    forall h, e :: h in holds && Timetabled(db, resource, e) ==> !Overlaps(WindowSpan(h.window), Bounds(e))
  }

  ghost predicate NeverOver(holds: seq<Reservation>, capacity: int) {
    forall t :: Covering(LoadsOf(holds), t) <= capacity
  }

  /** One resource, by its mode. A shared one contends with nothing. */
  ghost predicate SafeOn(db: Schedule, resource: Resource) {
    var holds := AllHolds(db, resource.id);
    match resource.mode
    case Shared => true
    case Exclusive => PairwiseApart(holds) && ClearOfTimetable(db, resource.id, holds)
    case Pooled => NeverOver(holds, resource.capacity) && ClearOfTimetable(db, resource.id, holds)
  }

  /** One resource of a world, whatever state the others are in. */
  ghost predicate Safe(world: World, id: int) {
    id in world.resources && Quantities(world.schedule.reservations) && SafeOn(world.schedule, world.resources[id])
  }

  // ---------------------------------------------------------------- one more hold

  lemma HoldsOneMore(db: Schedule, h: Reservation, resource: int)
    requires h.held
    ensures AllHolds(Plus(db, [h]), resource)
         == if h.resource == resource then AllHolds(db, resource) + [h] else AllHolds(db, resource)
  {
    FilterOneMore(db.reservations, h, (r: Reservation) => HeldOn(r, resource));
  }

  lemma TimetableAlone(db: Schedule, more: seq<Reservation>, resource: int, e: Entry)
    ensures Timetabled(Plus(db, more), resource, e) <==> Timetabled(db, resource, e)
  {
    assert Plus(db, more).slots == db.slots && Plus(db, more).days == db.days;
    assert forall slot, day :: Replaced(Plus(db, more), resource, slot, day) <==> Replaced(db, resource, slot, day);
  }

  lemma ConflictsEmptyIff(db: Schedule, resource: int, w: Window, holds: bool)
    ensures WindowConflicts(db, resource, w, holds) == []
       <==> forall e :: Occupies(db, resource, holds, e) ==> !Overlaps(Bounds(e), WindowSpan(w))
  {
    forall e ensures e in WindowConflicts(db, resource, w, holds)
                <==> Occupies(db, resource, holds, e) && Overlaps(Bounds(e), WindowSpan(w)) {
      WindowConflictsExact(db, resource, w, holds, e);
    }
    EmptyOrHas(WindowConflicts(db, resource, w, holds));
  }

  /** A window is clear of the timetable exactly when the lookup without holds finds nothing. */
  lemma TimetableClearIff(db: Schedule, resource: int, w: Window)
    ensures WindowConflicts(db, resource, w, false) == []
       <==> forall e :: Timetabled(db, resource, e) ==> !Overlaps(WindowSpan(w), Bounds(e))
  {
    ConflictsEmptyIff(db, resource, w, false);
  }

  /** What occupies an exclusive resource is its timetable and its holds. */
  lemma OccupiedByEither(db: Schedule, resource: int, s: Span)
    ensures (forall e :: Occupies(db, resource, true, e) ==> !Overlaps(Bounds(e), s))
       <==> && (forall e :: Timetabled(db, resource, e) ==> !Overlaps(s, Bounds(e)))
            && (forall h :: h in AllHolds(db, resource) ==> !Overlaps(WindowSpan(h.window), s))
  {
    if forall e :: Occupies(db, resource, true, e) ==> !Overlaps(Bounds(e), s) {
      forall h | h in AllHolds(db, resource) ensures !Overlaps(WindowSpan(h.window), s) {
        assert Occupies(db, resource, true, HoldEntry(h));
      }
    }
  }

  lemma ClearOneMore(db: Schedule, h: Reservation, holds: seq<Reservation>)
    requires ClearOfTimetable(db, h.resource, holds)
    ensures ClearOfTimetable(Plus(db, [h]), h.resource, holds + [h])
       <==> forall e :: Timetabled(db, h.resource, e) ==> !Overlaps(WindowSpan(h.window), Bounds(e))
  {
    var more := Plus(db, [h]);
    forall e ensures Timetabled(more, h.resource, e) <==> Timetabled(db, h.resource, e) {
      TimetableAlone(db, [h], h.resource, e);
    }
    assert (holds + [h])[|holds|] == h && h in holds + [h];
    if ClearOfTimetable(more, h.resource, holds + [h]) {
      forall e | Timetabled(db, h.resource, e) ensures !Overlaps(WindowSpan(h.window), Bounds(e)) {
        assert Timetabled(more, h.resource, e);
      }
    }
  }

  lemma ApartOneMore(holds: seq<Reservation>, h: Reservation)
    requires PairwiseApart(holds)
    ensures PairwiseApart(holds + [h])
       <==> forall g :: g in holds ==> !Overlaps(WindowSpan(g.window), WindowSpan(h.window))
  {
    var more := holds + [h];
    if PairwiseApart(more) {
      forall g | g in holds ensures !Overlaps(WindowSpan(g.window), WindowSpan(h.window)) {
        var i :| 0 <= i < |holds| && holds[i] == g;
        assert more[i] == g && more[|holds|] == h;
      }
    } else {
      var i, j :| 0 <= i < j < |more| && Overlaps(WindowSpan(more[i].window), WindowSpan(more[j].window));
      assert j == |holds| && more[i] in holds;
    }
  }

  /** The pool test is exact: with quantity units more the pool is never over exactly when the peak
      inside the window leaves room for them. */
  lemma PoolFitsIff(db: Schedule, h: Reservation, capacity: int)
    requires Quantities(db.reservations) && Proper(h.window)
    requires NeverOver(AllHolds(db, h.resource), capacity)
    ensures NeverOver(AllHolds(db, h.resource) + [h], capacity)
       <==> PoolTaken(db, h.resource, h.window) + h.quantity <= capacity
  {
    var holds := AllHolds(db, h.resource);
    var peak := PoolTakenExact(db, h.resource, h.window);
    CoveringOneMore(holds, h, peak);
    if PoolTaken(db, h.resource, h.window) + h.quantity <= capacity {
      forall t ensures Covering(LoadsOf(holds + [h]), t) <= capacity {
        CoveringOneMore(holds, h, t);
      }
    }
  }

  lemma ExclusiveExact(db: Schedule, resource: Resource, h: Reservation)
    requires resource.mode.Exclusive? && resource.active && h.resource == resource.id && h.held && SafeOn(db, resource)
    ensures ProblemOf(db, resource, h.window, h.quantity).None? <==> SafeOn(Plus(db, [h]), resource)
  {
    var holds := AllHolds(db, resource.id);
    HoldsOneMore(db, h, resource.id);
    ClearOneMore(db, h, holds);
    ApartOneMore(holds, h);
    ConflictsEmptyIff(db, resource.id, h.window, true);
    OccupiedByEither(db, resource.id, WindowSpan(h.window));
  }

  lemma PooledExact(db: Schedule, resource: Resource, h: Reservation)
    requires resource.mode.Pooled? && resource.active && h.resource == resource.id && h.held && Proper(h.window)
    requires Quantities(db.reservations) && SafeOn(db, resource)
    ensures ProblemOf(db, resource, h.window, h.quantity).None? <==> SafeOn(Plus(db, [h]), resource)
  {
    var holds := AllHolds(db, resource.id);
    HoldsOneMore(db, h, resource.id);
    ClearOneMore(db, h, holds);
    PoolFitsIff(db, h, resource.capacity);
    TimetableClearIff(db, resource.id, h.window);
  }

  /** On an active resource _problem refuses exactly the holds that would break the schedule. */
  lemma ProblemExact(db: Schedule, resource: Resource, h: Reservation)
    requires resource.active && h.resource == resource.id && h.held && Proper(h.window)
    requires Quantities(db.reservations) && SafeOn(db, resource)
    ensures ProblemOf(db, resource, h.window, h.quantity).None? <==> SafeOn(Plus(db, [h]), resource)
  {
    match resource.mode
    case Shared =>
    case Exclusive => ExclusiveExact(db, resource, h);
    case Pooled => PooledExact(db, resource, h);
  }

  /** What a refusal says. Out of use; or taken, with everything that sits on the window, bookings of a pool left out;
      or too few units left of a pool, with every booking of it that sits on the window. */
  lemma ProblemSays(db: Schedule, resource: Resource, w: Window, quantity: int, e: Entry)
    requires ProblemOf(db, resource, w, quantity).Some?
    ensures var Problem(reason, conflicts) := ProblemOf(db, resource, w, quantity).value;
            if !resource.active then reason == Inactive && e !in conflicts
            else if resource.mode.Exclusive? then
              reason == Taken && (e in conflicts <==> Occupies(db, resource.id, true, e) && Overlaps(Bounds(e), WindowSpan(w)))
            else if WindowConflicts(db, resource.id, w, false) != [] then
              reason == TakenByTimetable && (e in conflicts <==> Timetabled(db, resource.id, e) && Overlaps(Bounds(e), WindowSpan(w)))
            else
              reason == NotEnough(quantity) && (e in conflicts <==> HoldsOver(db, resource.id, w, e))
  {
    WindowConflictsExact(db, resource.id, w, true, e);
    WindowConflictsExact(db, resource.id, w, false, e);
    PoolListed(db, resource.id, w, e);
  }

  /** What a kind that came up short says: the first refusal, how many of how many are missing, and the conflicts of
      every refusal. */
  lemma {:induction false} ShortSays(t: Tally, quantity: int, e: Entry)
    ensures var Problem(reason, conflicts) := ShortOf(t, quantity);
            && reason.Short? && reason.missing == quantity - t.got && reason.quantity == quantity
            && (t.seen != [] ==> reason.first == Some(t.seen[0].reason)) && (t.seen == [] ==> reason.first == None)
            && (e in conflicts <==> exists i :: 0 <= i < |t.seen| && e in t.seen[i].conflicts)
  {
    InAllConflicts(t.seen, e);
  }

  lemma {:induction false} InAllConflicts(seen: seq<Problem>, e: Entry)
    ensures e in AllConflicts(seen) <==> exists i :: 0 <= i < |seen| && e in seen[i].conflicts
  {
    if seen != [] {
      var front := seen[..|seen| - 1];
      InAllConflicts(front, e);
      assert forall i :: 0 <= i < |front| ==> front[i] == seen[i];
    }
  }

  /** A standing booking of the resource at one time with the window. */
  ghost predicate HoldsOver(db: Schedule, resource: int, w: Window, e: Entry) {
    exists h :: h in db.reservations && h.resource == resource && h.held && Overlaps(WindowSpan(h.window), WindowSpan(w)) && e == HoldEntry(h)
  }

  lemma PoolListed(db: Schedule, resource: int, w: Window, e: Entry)
    ensures e in OccupiedOf([], PoolHolds(db, resource, w), [], w.day, LastDate(w)) <==> HoldsOver(db, resource, w, e)
  {
    InOccupied([], PoolHolds(db, resource, w), [], w.day, LastDate(w), e);
    if HoldsOver(db, resource, w, e) {
      var h :| h in db.reservations && h.resource == resource && h.held && Overlaps(WindowSpan(h.window), WindowSpan(w)) && e == HoldEntry(h);
      ReachesItsDates(db, h, resource, w);
    } else {
      assert forall h :: h in PoolHolds(db, resource, w) ==> e != HoldEntry(h);
    }
  }

  lemma ReachesItsDates(db: Schedule, h: Reservation, resource: int, w: Window)
    requires h in db.reservations && h.resource == resource && h.held && Overlaps(WindowSpan(h.window), WindowSpan(w))
    ensures h in PoolHolds(db, resource, w) && Overlaps(Bounds(HoldEntry(h)), Asked(w.day, LastDate(w)))
  {
    OverlapMeansNear(h.window, w);
  }

  function WithBookings(world: World, more: seq<Reservation>): World {
    world.(schedule := Plus(world.schedule, more))
  }

  lemma SafeAfterHold(world: World, h: Reservation, id: int)
    requires Safe(world, id) && Consistent(world) && AcceptedHold(world, world.schedule, h)
    ensures Safe(WithBookings(world, [h]), id)
  {
    if id == h.resource {
      ProblemExact(world.schedule, world.resources[id], h);
    }
  }

  ghost predicate SafeWith(world: World, children: seq<Reservation>, n: nat, id: int) {
    n <= |children| && Safe(WithBookings(world, children[..n]), id)
  }

  /** Children accepted one by one leave the resource safe. */
  lemma SafeAfterChildren(world: World, children: seq<Reservation>, id: int)
    requires Safe(world, id) && Consistent(world) && Accepted(world, world.schedule, children)
    ensures Safe(WithBookings(world, children), id)
  {
    var p := (n: nat) => SafeWith(world, children, n, id);
    forall n: nat | n < |children| ensures p(n) ==> p(n + 1) {
      assert AcceptedAt(world, world.schedule, children, n);
      SafeAfterOneMore(world, children, n, id);
    }
    NoBookings(world, children);
    CountUp(p, |children|);
  }

  lemma NoBookings(world: World, children: seq<Reservation>)
    ensures WithBookings(world, children[..0]) == world
    ensures children[..|children|] == children
  {
    assert world.schedule.reservations + children[..0] == world.schedule.reservations;
  }

  lemma BookingsJoin(world: World, children: seq<Reservation>, n: nat)
    requires n < |children|
    ensures WithBookings(WithBookings(world, children[..n]), [children[n]]) == WithBookings(world, children[..n + 1])
  {
    assert world.schedule.reservations + children[..n] + [children[n]] == world.schedule.reservations + children[..n + 1];
  }

  lemma SafeAfterOneMore(world: World, children: seq<Reservation>, n: nat, id: int)
    requires n < |children| && AcceptedAt(world, world.schedule, children, n) && Consistent(world)
    ensures SafeWith(world, children, n, id) ==> SafeWith(world, children, n + 1, id)
  {
    if SafeWith(world, children, n, id) {
      BookingsJoin(world, children, n);
      SafeAfterHold(WithBookings(world, children[..n]), children[n], id);
    }
  }

  /** Any completed real walk leaves a safe resource safe, through every named and kind pick in it. */
  lemma SafeAfterWalk(ctx: Context, used: set<int>, choices: map<string, seq<int>>, owners: seq<Owner>, w: Window, id: int)
    requires !ctx.dry && Consistent(ctx.world) && Proper(w) && Safe(ctx.world, id)
    ensures var done := Resolve(ctx, Run(used, choices, [], []), owners, w);
            done.Done? ==> Safe(WithBookings(ctx.world, done.value.children), id) && HeldOnce(used, done.value)
  {
    var done := Resolve(ctx, Run(used, choices, [], []), owners, w);
    if done.Done? {
      WalkAccepts(ctx, used, choices, owners, w);
      SafeAfterChildren(ctx.world, done.value.children, id);
    }
  }

  /** A real walk that goes through, seen from its dry twin. */
  lemma WalkAccepts(ctx: Context, used: set<int>, choices: map<string, seq<int>>, owners: seq<Owner>, w: Window)
    requires !ctx.dry && Consistent(ctx.world) && Proper(w)
    requires Resolve(ctx, Run(used, choices, [], []), owners, w).Done?
    ensures var done := Resolve(ctx, Run(used, choices, [], []), owners, w).value;
            Accepted(ctx.world, ctx.world.schedule, done.children) && HeldOnce(used, done)
  {
    var dry := ctx.(dry := true);
    assert Plus(ctx.world.schedule, []) == ctx.world.schedule;
    assert RealOf(dry, []) == ctx;
    DryAndRealAgree(dry, [], used, choices, owners, w);
  }

  // ---------------------------------------------------------------- the booking route

  datatype Request = Request(resource: int, window: Window, quantity: int, choices: map<string, seq<int>>)

  datatype Turned = NoResource | OneOfIt | BadAssignment | NotFree(problem: Problem) | Unmet(why: Stop)

  datatype Booked = Held(world: World, parent: Reservation, children: seq<Reservation>, unmet: seq<Gap>) | TurnedDown(turned: Turned)

  predicate Assignable(world: World, choices: map<string, seq<int>>) {
    forall kind, id :: kind in choices && id in choices[kind] ==>
      id in world.resources && world.resources[id].kind == kind && world.resources[id].active
  }

  function NamedBy(choices: map<string, seq<int>>): set<int> {
    set kind, id | kind in choices && id in choices[kind] :: id
  }

  function ContextFor(world: World, choices: map<string, seq<int>>, dry: bool): Context {
    Context(world, NamedBy(choices), dry)
  }

  function ParentOf(world: World, req: Request): Reservation
    requires req.resource in world.resources
  {
    Reservation(NextId(world.schedule.reservations), req.resource, req.window, req.quantity, world.resources[req.resource].mode, true)
  }

  /** One request, one transaction: the parent's own checks, the parent, and what it requires. The
      route asks whether the window is free and not whether the resource is active. */
  function Book(world: World, req: Request): Booked {
    if req.resource !in world.resources then TurnedDown(NoResource)
    else
      var resource := world.resources[req.resource];
      if req.quantity > 1 && !resource.mode.Pooled? then TurnedDown(OneOfIt)
      else if !Assignable(world, req.choices) then TurnedDown(BadAssignment)
      else
        var problem := ProblemOf(world.schedule, resource.(active := true), req.window, req.quantity);
        if problem.Some? then TurnedDown(NotFree(problem.value))
        else
          var parent := ParentOf(world, req);
          var ctx := ContextFor(WithBookings(world, [parent]), req.choices, false);
          match Resolve(ctx, Run({req.resource}, req.choices, [], []), [ResourceOwner(req.resource)], req.window)
          case Stopped(why) => TurnedDown(Unmet(why))
          case Done(run) => Held(WithBookings(WithBookings(world, [parent]), run.children), parent, run.children, run.unmet)
  }

  /** Equal times and quantities below one never reach the route: the schema refuses them. */
  predicate WellFormed(req: Request) {
    Proper(req.window) && req.quantity >= 1
  }

  lemma BookKeepsSafe(world: World, req: Request, id: int)
    requires Safe(world, id) && Consistent(world) && WellFormed(req)
    ensures Book(world, req).Held? ==> Safe(Book(world, req).world, id) && Consistent(Book(world, req).world)
  {
    if Book(world, req).Held? {
      var parent := ParentOf(world, req);
      ParentKeepsSafe(world, req, id);
      SafeAfterWalk(ContextFor(WithBookings(world, [parent]), req.choices, false), {req.resource}, req.choices,
                    [ResourceOwner(req.resource)], req.window, id);
    }
  }

  lemma ParentKeepsSafe(world: World, req: Request, id: int)
    requires Safe(world, id) && Consistent(world) && WellFormed(req) && req.resource in world.resources
    requires ProblemOf(world.schedule, world.resources[req.resource].(active := true), req.window, req.quantity).None?
    ensures Safe(WithBookings(world, [ParentOf(world, req)]), id)
  {
    var parent, resource := ParentOf(world, req), world.resources[id];
    if id == req.resource {
      ProblemExact(world.schedule, resource.(active := true), parent);
      assert forall d: Schedule :: SafeOn(d, resource.(active := true)) <==> SafeOn(d, resource);
    }
  }

  /** The route gets as far as the requirements exactly when the resource is there and free as if in use, more than one
      unit is asked for only of a pool, and every assignment is an active resource of its kind. */
  lemma BookAsks(world: World, req: Request)
    ensures Book(world, req).Held? || Book(world, req).turned.Unmet? <==>
            && req.resource in world.resources && (req.quantity > 1 ==> world.resources[req.resource].mode == Pooled)
            && (forall kind, id :: kind in req.choices && id in req.choices[kind] ==>
                  id in world.resources && world.resources[id].kind == kind && world.resources[id].active)
            && ProblemOf(world.schedule, world.resources[req.resource].(active := true), req.window, req.quantity) == None
  {
    if req.resource in world.resources {
      AssignableIs(world, req.choices);
    }
  }

  lemma AssignableIs(world: World, choices: map<string, seq<int>>)
    ensures Assignable(world, choices) <==>
            forall kind, id :: kind in choices && id in choices[kind] ==>
              id in world.resources && world.resources[id].kind == kind && world.resources[id].active
  {
  }

  /** What is held is the request as asked and its children, and nothing else changes. */
  lemma BookHolds(world: World, req: Request)
    requires Book(world, req).Held?
    ensures var Held(after, parent, children, _) := Book(world, req);
            && req.resource in world.resources && parent.mode == world.resources[req.resource].mode
            && parent.resource == req.resource && parent.window == req.window && parent.quantity == req.quantity && parent.held
            && after == world.(schedule := world.schedule.(reservations := world.schedule.reservations + [parent] + children))
  {
  }

  /** A booking that is held can be accounted for: each requirement of the resource and of all that is held with it,
      and each resource the caller assigned. */
  lemma BookIsAccountedFor(world: World, req: Request) returns (books: Accounts.Books)
    requires Consistent(world) && WellFormed(req) && Quantities(world.schedule.reservations) && Distinct(world.requirements)
    requires Book(world, req).Held?
    ensures var Held(_, parent, children, unmet) := Book(world, req);
            var ctx := Context(WithBookings(world, [parent]), NamedBy(req.choices), false);
            exists run: Run :: && run.children == children && run.unmet == unmet
                               && run.used == {req.resource} + (set h | h in children :: h.resource)
                               && Accounts.AccountedFor(Accounts.Case(ctx, [ResourceOwner(req.resource)], req.window), run, books)
                               && forall kind, id :: kind in req.choices && id in req.choices[kind] ==> Choices.Answered(run, kind, id)
  {
    var parent := ParentOf(world, req);
    var ctx := ContextFor(WithBookings(world, [parent]), req.choices, false);
    var run := Resolve(ctx, Run({req.resource}, req.choices, [], []), [ResourceOwner(req.resource)], req.window).value;
    books := Accounts.EveryNeedIsAccountedFor(ctx, {req.resource}, req.choices, [ResourceOwner(req.resource)], req.window);
    Choices.EveryChoiceIsAnswered(ctx, {req.resource}, req.choices, [ResourceOwner(req.resource)], req.window);
    WalkAccepts(ctx, {req.resource}, req.choices, [ResourceOwner(req.resource)], req.window);
    UsedIsHeld({req.resource}, run);
  }

  lemma UsedIsHeld(initial: set<int>, run: Run)
    requires HeldOnce(initial, run)
    ensures run.used == initial + set h | h in run.children :: h.resource
  {
    var held := set h | h in run.children :: h.resource;
    forall x ensures x in run.used <==> x in initial + held {
      if x !in initial {
        assert x in run.used - initial <==> exists h :: h in run.children && h.resource == x;
      }
    }
  }

  // ---------------------------------------------------------------- availability keeps its word

  /** GET availability with_requirements: no gap at all, and one unit of the resource itself free. */
  predicate RequirementsMet(world: World, resource: int, w: Window) {
    && resource in world.resources
    && Resolve(ContextFor(world, map[], true), Run({resource}, map[], [], []), [ResourceOwner(resource)], w).Done?
    && Resolve(ContextFor(world, map[], true), Run({resource}, map[], [], []), [ResourceOwner(resource)], w).value.unmet == []
    && ProblemOf(world.schedule, world.resources[resource], w, 1).None?
  }

  /** Availability says a window can be held with all it requires exactly when the booking route holds it with
      nothing unmet and the resource is active. The route itself does not ask the last. */
  lemma AvailabilityIsBookableIff(world: World, resource: int, w: Window)
    requires Consistent(world) && Proper(w)
    ensures RequirementsMet(world, resource, w) <==>
            var booked := Book(world, Request(resource, w, 1, map[]));
            booked.Held? && booked.unmet == [] && world.resources[resource].active
  {
    if resource in world.resources {
      var parent := ParentOf(world, Request(resource, w, 1, map[]));
      DryAndRealAgree(ContextFor(world, map[], true), [parent], {resource}, map[], [ResourceOwner(resource)], w);
    }
  }

  /** One room out of use, and nothing else. */
  function OutOfUse(): World {
    var room := Resource(1, [], Exclusive, 1, false);
    World(map[1 := room], [1], [], Schedule([], [], []), Required)
  }

  /** It is booked all the same, and availability says it cannot be. */
  lemma InactiveIsBooked(w: Window)
    requires Proper(w)
    ensures Book(OutOfUse(), Request(1, w, 1, map[])).Held? && !RequirementsMet(OutOfUse(), 1, w)
  {
    EmptyIsFree(OutOfUse().schedule, OutOfUse().resources[1].(active := true), ParentOf(OutOfUse(), Request(1, w, 1, map[])));
    BookedIfFree(OutOfUse(), 1, w);
  }

  lemma EmptyIsFree(db: Schedule, resource: Resource, h: Reservation)
    requires db == Schedule([], [], []) && resource.mode.Exclusive? && resource.active && h.resource == resource.id && h.held
    ensures ProblemOf(db, resource, h.window, h.quantity).None?
  {
    assert AllHolds(db, resource.id) == [];
    ExclusiveExact(db, resource, h);
  }

  /** With nothing required, one unit is held wherever the route's own test passes. */
  lemma BookedIfFree(world: World, resource: int, w: Window)
    requires resource in world.resources && world.requirements == []
    requires ProblemOf(world.schedule, world.resources[resource].(active := true), w, 1).None?
    ensures Book(world, Request(resource, w, 1, map[])).Held?
  {
    var parent := ParentOf(world, Request(resource, w, 1, map[]));
    NothingRequired(ContextFor(WithBookings(world, [parent]), map[], false), {resource}, resource, w);
  }

  lemma NothingRequired(ctx: Context, used: set<int>, resource: int, w: Window)
    requires ctx.world.requirements == []
    ensures Resolve(ctx, Run(used, map[], [], []), [ResourceOwner(resource)], w).Done?
  {
    var run := Run(used, map[], [], []);
    assert RowsOf(ctx.world, ResourceOwner(resource)) == [];
    assert [ResourceOwner(resource)][1..] == [];
    assert WalkOwners(ctx, run, [], w, 1) == Done(run);
    assert WalkOwners(ctx, run, [ResourceOwner(resource)], w, 1) == Done(run);
    assert LeftOver(run.choices) == {};
  }

  // ---------------------------------------------------------------- what availability calls busy

  predicate Touching(busy: seq<Entry>, w: Window) {
    exists e :: e in busy && Overlaps(Bounds(e), WindowSpan(w))
  }

  /** The route's own test of one unit, which asks nothing of the active flag. */
  predicate FreeFor(db: Schedule, resource: Resource, w: Window) {
    ProblemOf(db, resource.(active := true), w, 1).None?
  }

  lemma FullTouchesIff(db: Schedule, resource: int, capacity: int, w: Window, full: seq<Entry>)
    requires Quantities(db.reservations) && Proper(w) && 1 <= capacity && Separated(BoundsOf(full))
    requires forall t :: Midnight(w.day) <= t < Midnight(LastDate(w) + 1) ==>
               (InSome(BoundsOf(full), t) <==> 1 <= capacity <= Covering(LoadsOf(AllHolds(db, resource)), t))
    ensures Touching(full, w) <==> capacity <= PoolTaken(db, resource, w)
  {
    SpanLength(w);
    var peak := PoolTakenExact(db, resource, w);
    if e :| e in full && Overlaps(Bounds(e), WindowSpan(w)) {
      var k :| 0 <= k < |full| && full[k] == e;
      assert BoundsOf(full)[k] == Bounds(e);
      OverlapIsCommonInstant(Bounds(e), WindowSpan(w));
      var t :| Covers(Bounds(e), t) && Covers(WindowSpan(w), t);
      assert InSome(BoundsOf(full), t);
    }
    if capacity <= PoolTaken(db, resource, w) {
      assert InSome(BoundsOf(full), peak);
      var k :| 0 <= k < |full| && Covers(BoundsOf(full)[k], peak);
      assert full[k] in full && Bounds(full[k]) == BoundsOf(full)[k];
    }
  }

  lemma OccupiedTouchesIff(db: Schedule, resource: int, w: Window, holds: bool, busy: seq<Entry>)
    requires busy == OccupiedOf(BookedSlots(db, resource), if holds then HeldReservations(db, resource, w.day, LastDate(w)) else [],
                                BookedDays(db, resource, w.day, LastDate(w)), w.day, LastDate(w))
    ensures Touching(busy, w) <==> WindowConflicts(db, resource, w, holds) != []
  {
    EmptyOrHas(WindowConflicts(db, resource, w, holds));
  }

  /** GET availability over a window's own dates: on an exclusive or pooled resource one unit can be booked over the
      window exactly when nothing in the list touches it. On a shared one the list is the timetable's and booking
      does not ask it. */
  method BusyOver(db: Schedule, resource: Resource, w: Window) returns (busy: seq<Entry>)
    requires Quantities(db.reservations) && Proper(w) && (resource.mode.Pooled? ==> 1 <= resource.capacity)
    ensures !resource.mode.Shared? ==> (FreeFor(db, resource, w) <==> !Touching(busy, w))
    ensures resource.mode.Shared? ==> FreeFor(db, resource, w)
    ensures resource.mode.Shared? ==>
              (Touching(busy, w) <==> exists e :: Timetabled(db, resource.id, e) && Overlaps(Bounds(e), WindowSpan(w)))
  {
    var first, last := w.day, LastDate(w);
    var held := if resource.mode.Exclusive? then HeldReservations(db, resource.id, first, last) else [];
    busy := Occupied(BookedSlots(db, resource.id), held, BookedDays(db, resource.id, first, last), first, last);
    OccupiedTouchesIff(db, resource.id, w, resource.mode.Exclusive?, busy);
    TimetableClearIff(db, resource.id, w);
    if resource.mode.Pooled? {
      var full := PoolFullOver(db, resource.id, resource.capacity, first, last);
      FullTouchesIff(db, resource.id, resource.capacity, w, full);
      SortByKeeps(busy + full, EntryLe);
      busy := SortBy(busy + full, EntryLe);
    }
  }

  /** A slot on a shared resource: availability calls the hour busy and the route books it all the same. */
  function SharedHall(): World {
    var hall := Resource(1, [], Shared, 1, true);
    var slot := Slot(1, Some(1), Rule(0, (d: int) => true), 0, 60_000_000, Cycle(0, 9, true), None, false, false);
    World(map[1 := hall], [1], [], Schedule([slot], [], []), Required)
  }

  lemma SharedIsBookedWhileBusy()
    ensures var w := Window(5, 0, 60_000_000);
            && WindowConflicts(SharedHall().schedule, 1, w, false) != []
            && Book(SharedHall(), Request(1, w, 1, map[])).Held?
  {
    HallIsBusy();
    HallIsBooked();
  }

  lemma HallIsBooked()
    ensures Book(SharedHall(), Request(1, Window(5, 0, 60_000_000), 1, map[])).Held?
  {
    var hall := SharedHall().resources[1];
    SharedIsFree(SharedHall().schedule, hall.(active := true), Window(5, 0, 60_000_000), 1);
    BookedIfFree(SharedHall(), 1, Window(5, 0, 60_000_000));
  }

  lemma SharedIsFree(db: Schedule, resource: Resource, w: Window, quantity: int)
    requires resource.mode.Shared? && resource.active
    ensures ProblemOf(db, resource, w, quantity).None?
  {
  }

  lemma HallIsTimetabled()
    ensures Timetabled(SharedHall().schedule, 1, SlotEntry(SharedHall().schedule.slots[0], 5))
  {
    var slot := SharedHall().schedule.slots[0];
    assert slot in SharedHall().schedule.slots && SlotRunsOn(slot, 5) && Live(slot);
  }

  lemma HallIsBusy()
    ensures WindowConflicts(SharedHall().schedule, 1, Window(5, 0, 60_000_000), false) != []
  {
    var db := SharedHall().schedule;
    HallIsTimetabled();
    WindowConflictsExact(db, 1, Window(5, 0, 60_000_000), false, SlotEntry(db.slots[0], 5));
  }

  // ---------------------------------------------------------------- runs of bookings

  function CancelRow(row: Reservation, ids: set<int>): Reservation {
    if row.id in ids then row.(held := false) else row
  }

  function CancelRows(rows: seq<Reservation>, ids: set<int>): seq<Reservation> {
    if rows == [] then [] else CancelRows(rows[..|rows| - 1], ids) + [CancelRow(rows[|rows| - 1], ids)]
  }

  /** Cancelled rows stay in the table and stop holding anything. */
  function Cancelled(world: World, ids: set<int>): World {
    world.(schedule := world.schedule.(reservations := CancelRows(world.schedule.reservations, ids)))
  }

  lemma {:induction false} CancelLeavesOthers(rows: seq<Reservation>, ids: set<int>, resource: int)
    ensures Filter(CancelRows(rows, ids), (h: Reservation) => HeldOn(h, resource))
         == Filter(Filter(rows, (h: Reservation) => HeldOn(h, resource)), (h: Reservation) => h.id !in ids)
  {
    if rows != [] {
      var front, last := rows[..|rows| - 1], rows[|rows| - 1];
      CancelLeavesOthers(front, ids, resource);
      var p := (h: Reservation) => HeldOn(h, resource);
      var q := (h: Reservation) => h.id !in ids;
      assert rows == front + [last];
      FilterOneMore(CancelRows(front, ids), CancelRow(last, ids), p);
      FilterOneMore(Filter(front, p), last, q);
    }
  }

  lemma {:induction false} CancelQuantities(rows: seq<Reservation>, ids: set<int>)
    requires Quantities(rows)
    ensures Quantities(CancelRows(rows, ids)) && |CancelRows(rows, ids)| == |rows|
  {
    if rows != [] {
      assert rows[|rows| - 1] in rows;
      CancelQuantities(rows[..|rows| - 1], ids);
    }
  }

  /** Letting some holds go breaks nothing. */
  lemma {:induction false} FewerApart(holds: seq<Reservation>, q: Reservation -> bool)
    requires PairwiseApart(holds)
    ensures PairwiseApart(Filter(holds, q))
  {
    if holds != [] {
      var front, last := holds[..|holds| - 1], holds[|holds| - 1];
      FewerApart(front, q);
      assert holds == front + [last];
      ApartOneMore(front, last);
      ApartOneMore(Filter(front, q), last);
    }
  }

  lemma {:induction false} FewerCovering(holds: seq<Reservation>, q: Reservation -> bool, t: int)
    requires Quantities(holds)
    ensures Covering(LoadsOf(Filter(holds, q)), t) <= Covering(LoadsOf(holds), t)
  {
    if holds != [] {
      var front, last := holds[..|holds| - 1], holds[|holds| - 1];
      assert last in holds && holds == front + [last];
      FewerCovering(front, q, t);
      CoveringOneMore(front, last, t);
      CoveringOneMore(Filter(front, q), last, t);
    }
  }

  lemma CancelKeepsSafe(world: World, ids: set<int>, id: int)
    requires Safe(world, id)
    ensures Safe(Cancelled(world, ids), id)
  {
    var db, after := world.schedule, Cancelled(world, ids).schedule;
    CancelQuantities(db.reservations, ids);
    var resource := world.resources[id];
    var holds := AllHolds(db, resource.id);
    var q := (h: Reservation) => h.id !in ids;
    CancelLeavesOthers(db.reservations, ids, resource.id);
    assert AllHolds(after, resource.id) == Filter(holds, q);
    forall e ensures Timetabled(after, resource.id, e) <==> Timetabled(db, resource.id, e) {
      assert forall slot, day :: Replaced(after, resource.id, slot, day) <==> Replaced(db, resource.id, slot, day);
    }
    match resource.mode
    case Shared =>
    case Exclusive => FewerApart(holds, q);
    case Pooled =>
      forall t ensures Covering(LoadsOf(Filter(holds, q)), t) <= resource.capacity {
        FewerCovering(holds, q, t);
      }
  }

  ghost predicate DistinctIds(world: World) {
    forall i, j :: 0 <= i < j < |world.schedule.reservations| ==> world.schedule.reservations[i].id != world.schedule.reservations[j].id
  }

  lemma NewIdIsDistinct(world: World, h: Reservation)
    requires DistinctIds(world) && NewerThan(h.id, world.schedule.reservations)
    ensures DistinctIds(WithBookings(world, [h]))
  {
    assert forall i :: 0 <= i < |world.schedule.reservations| ==> world.schedule.reservations[i] in world.schedule.reservations;
  }

  lemma {:induction false} ChildrenDistinct(world: World, children: seq<Reservation>, n: nat)
    requires DistinctIds(world) && Accepted(world, world.schedule, children) && n <= |children|
    ensures DistinctIds(WithBookings(world, children[..n]))
  {
    if n == 0 {
      NoBookings(world, children);
    } else {
      ChildrenDistinct(world, children, n - 1);
      BookingsJoin(world, children, n - 1);
      assert AcceptedAt(world, world.schedule, children, n - 1);
      NewIdIsDistinct(WithBookings(world, children[..n - 1]), children[n - 1]);
    }
  }

  lemma BookKeepsIds(world: World, req: Request)
    requires Consistent(world) && WellFormed(req) && DistinctIds(world)
    ensures Book(world, req).Held? ==> DistinctIds(Book(world, req).world) && Consistent(Book(world, req).world)
  {
    if Book(world, req).Held? {
      var parent := ParentOf(world, req);
      NextIdIsNew(world.schedule.reservations);
      NewIdIsDistinct(world, parent);
      var ctx := ContextFor(WithBookings(world, [parent]), req.choices, false);
      WalkAccepts(ctx, {req.resource}, req.choices, [ResourceOwner(req.resource)], req.window);
      var children := Book(world, req).children;
      ChildrenDistinct(ctx.world, children, |children|);
      assert children[..|children|] == children;
    }
  }

  lemma {:induction false} CancelKeepsIds(rows: seq<Reservation>, ids: set<int>)
    ensures |CancelRows(rows, ids)| == |rows| && forall i :: 0 <= i < |rows| ==> CancelRows(rows, ids)[i].id == rows[i].id
  {
    if rows != [] {
      CancelKeepsIds(rows[..|rows| - 1], ids);
    }
  }

  datatype Event = BookEvent(req: Request) | CancelEvent(ids: set<int>)

  function After(world: World, events: seq<Event>): World {
    if events == [] then world
    else
      var before := After(world, events[..|events| - 1]);
      match events[|events| - 1]
      case CancelEvent(ids) => Cancelled(before, ids)
      case BookEvent(req) =>
        var booked := Book(before, req);
        if booked.Held? then booked.world else before
  }

  /** Over every run of bookings and cancellations a resource that is safe stays safe, whatever the others are. */
  lemma {:induction false} AlwaysSafe(world: World, events: seq<Event>, id: int)
    requires Safe(world, id) && Consistent(world)
    requires forall e :: e in events && e.BookEvent? ==> WellFormed(e.req)
    ensures Safe(After(world, events), id) && Consistent(After(world, events))
  {
    if events != [] {
      assert events[|events| - 1] in events;
      AlwaysSafe(world, events[..|events| - 1], id);
      var before := After(world, events[..|events| - 1]);
      match events[|events| - 1]
      case CancelEvent(ids) => CancelKeepsSafe(before, ids, id);
      case BookEvent(req) => BookKeepsSafe(before, req, id);
    }
  }

  /** And no two rows of the table ever come to share an id. */
  lemma {:induction false} IdsStayDistinct(world: World, events: seq<Event>)
    requires Consistent(world) && DistinctIds(world)
    requires forall e :: e in events && e.BookEvent? ==> WellFormed(e.req)
    ensures DistinctIds(After(world, events)) && Consistent(After(world, events))
  {
    if events != [] {
      assert events[|events| - 1] in events;
      IdsStayDistinct(world, events[..|events| - 1]);
      var before := After(world, events[..|events| - 1]);
      match events[|events| - 1]
      case CancelEvent(ids) => CancelKeepsIds(before.schedule.reservations, ids);
      case BookEvent(req) => BookKeepsIds(before, req);
    }
  }
}
