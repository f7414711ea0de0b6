/** The dry walk that availability reports from and the real walk that books agree
    (backend/app/services/requirements.py, the claim in its opening lines). One induction over the
    walk gives that, and with it what the real walk holds: each resource once, and each accepted
    against everything held before it. */
module Agreement {
  import opened Sequences
  import opened Time
  import opened Tables
  import opened Pool
  import opened Availability
  import opened Requirements
  import opened Padding
  import opened Walk

  // ---------------------------------------------------------------- gaps

  /** A gap a real walk would not have walked past. */
  predicate Blocking(g: Gap) {
    g.enforcement.Required? || g.reason.CrossesMidnight?
  }

  function FirstBlocking(gaps: seq<Gap>): Option<Gap> {
    if gaps == [] then None else if Blocking(gaps[0]) then Some(gaps[0]) else FirstBlocking(gaps[1..])
  }

  /** What the real walk answers there. */
  function StopFor(g: Gap): Stop {
    if g.reason.CrossesMidnight? then PaddingCrosses(g.requirement.id)
    else Unsatisfied(g.requirement.id, g.reason, g.conflicts)
  }

  lemma {:induction false} FirstBlockingConcat(a: seq<Gap>, b: seq<Gap>)
    ensures FirstBlocking(a + b) == if FirstBlocking(a).Some? then FirstBlocking(a) else FirstBlocking(b)
  {
    if a == [] {
      assert a + b == b;
    } else {
      assert (a + b)[1..] == a[1..] + b;
      FirstBlockingConcat(a[1..], b);
    }
  }

  lemma {:induction false} FirstBlockingNone(gaps: seq<Gap>)
    ensures FirstBlocking(gaps).None? <==> forall g :: g in gaps ==> !Blocking(g)
  {
    if gaps != [] {
      FirstBlockingNone(gaps[1..]);
      assert forall g :: g in gaps <==> g == gaps[0] || g in gaps[1..];
    }
  }

  // ---------------------------------------------------------------- bookings elsewhere do not matter

  /** Bookings on other resources change nothing about a resource. */
  lemma ProblemElsewhere(db: Schedule, more: seq<Reservation>, resource: Resource, w: Window, quantity: int)
    requires forall h :: h in more ==> h.resource != resource.id
    ensures ProblemOf(Plus(db, more), resource, w, quantity) == ProblemOf(db, resource, w, quantity)
  {
    var p := (h: Reservation) => HoldsIn(h, resource.id, w.day, LastDate(w));
    FilterConcat(db.reservations, more, p);
    FilterNone(more, p);
    assert HeldReservations(Plus(db, more), resource.id, w.day, LastDate(w)) == HeldReservations(db, resource.id, w.day, LastDate(w));
  }

  // ---------------------------------------------------------------- what a live walk has held

  ghost predicate Consistent(world: World) {
    && (forall id :: id in world.resources ==> world.resources[id].id == id)
    && (forall r :: r in world.requirements ==> r.quantity >= 1)
  }

  /** A hold that was checked, against a schedule, and found free, under an id of its own. */
  ghost predicate AcceptedHold(world: World, db: Schedule, h: Reservation) {
    && NewerThan(h.id, db.reservations) && h.resource in world.resources && h.held && Proper(h.window) && h.quantity >= 1
    && ProblemOf(db, world.resources[h.resource], h.window, h.quantity).None?
  }

  ghost predicate NewerThan(id: int, rows: seq<Reservation>) {
    forall r :: r in rows ==> r.id < id
  }

  lemma {:induction false} NextIdIsNew(rows: seq<Reservation>)
    ensures NewerThan(NextId(rows), rows)
  {
    if rows != [] {
      NextIdIsNew(rows[..|rows| - 1]);
      assert forall r :: r in rows <==> r in rows[..|rows| - 1] || r == rows[|rows| - 1];
    }
  }

  /** Each child was accepted against the table and the children before it. */
  ghost predicate Accepted(world: World, db: Schedule, children: seq<Reservation>) {
    forall k :: 0 <= k < |children| ==> AcceptedAt(world, db, children, k)
  }

  ghost predicate AcceptedAt(world: World, db: Schedule, children: seq<Reservation>, k: int)
    requires 0 <= k < |children|
  {
    AcceptedHold(world, Plus(db, children[..k]), children[k])
  }

  /** The children are on distinct resources, exactly the ones the walk has added to used. */
  ghost predicate HeldOnce(initial: set<int>, run: Run) {
    && initial <= run.used
    && (forall x :: x in run.used - initial <==> exists h :: h in run.children && h.resource == x)
    && (forall i, j :: 0 <= i < j < |run.children| ==> run.children[i].resource != run.children[j].resource)
  }

  /** The same walk for real, with its parent already in the table. */
  function RealOf(dry: Context, parents: seq<Reservation>): Context {
    dry.(dry := false, world := dry.world.(schedule := Plus(dry.world.schedule, parents)))
  }

  /** A dry run and a real run that are at the same point. */
  ghost predicate Twins(ctx: Context, parents: seq<Reservation>, initial: set<int>, d: Run, r: Run) {
    && d.used == r.used && d.choices == r.choices && d.unmet == r.unmet && d.children == []
    && (forall h :: h in parents ==> h.resource in r.used)
    && HeldOnce(initial, r)
    && Accepted(ctx.world, RealOf(ctx, parents).world.schedule, r.children)
  }

  /** How the two answers of one step compare: the real one stops at the first blocking gap the dry
      one listed, and with none they are at the same point again. */
  ghost predicate Agree(ctx: Context, parents: seq<Reservation>, initial: set<int>, d: Run, dry: Result<Run>, live: Result<Run>) {
    match dry
    case Stopped(_) => live.Stopped?
    case Done(d') =>
      && d.unmet <= d'.unmet
      && match FirstBlocking(d'.unmet[|d.unmet|..])
         case Some(g) => live == Stopped(StopFor(g))
         case None => live.Done? && Twins(ctx, parents, initial, d', live.value)
  }

  /** Two steps one after the other. */
  lemma AgreeThen(ctx: Context, parents: seq<Reservation>, initial: set<int>, d: Run, d1: Run, live1: Result<Run>, dry2: Result<Run>, live2: Result<Run>)
    requires Agree(ctx, parents, initial, d, Done(d1), live1)
    requires live1.Done? ==> Agree(ctx, parents, initial, d1, dry2, live2)
    requires live1.Stopped? ==> live2 == live1 && (dry2.Done? ==> d1.unmet <= dry2.value.unmet)
    ensures Agree(ctx, parents, initial, d, dry2, live2)
  {
    if dry2.Done? {
      var a, b := d1.unmet[|d.unmet|..], dry2.value.unmet[|d1.unmet|..];
      assert dry2.value.unmet[|d.unmet|..] == a + b;
      FirstBlockingConcat(a, b);
    }
  }

  lemma FreeAlike(ctx: Context, parents: seq<Reservation>, initial: set<int>, d: Run, r: Run, resource: Resource, w: Window, quantity: int)
    requires Twins(ctx, parents, initial, d, r) && resource.id !in r.used
    ensures ProblemOf(Seen(RealOf(ctx, parents), r), resource, w, quantity) == ProblemOf(Seen(ctx, d), resource, w, quantity)
  {
    var db := ctx.world.schedule;
    assert Seen(ctx, d) == db;
    forall h | h in parents + r.children ensures h.resource != resource.id {
      if h in r.children {
        assert h.resource in r.used - initial;
      }
    }
    assert (db.reservations + parents) + r.children == db.reservations + (parents + r.children);
    assert Seen(RealOf(ctx, parents), r) == Plus(db, parents + r.children);
    ProblemElsewhere(db, parents + r.children, resource, w, quantity);
  }

  lemma AgreeMiss(ctx: Context, parents: seq<Reservation>, initial: set<int>, d: Run, r: Run, row: Requirement, problem: Problem, missing: int)
    requires ctx.dry && Twins(ctx, parents, initial, d, r) && !problem.reason.CrossesMidnight?
    ensures Agree(ctx, parents, initial, d, Miss(ctx, d, row, problem, missing), Miss(RealOf(ctx, parents), r, row, problem, missing))
  {
    var gap := Gap(row, missing, EnforcementOf(ctx, row), problem.reason, problem.conflicts);
    assert Miss(ctx, d, row, problem, missing).value.unmet[|d.unmet|..] == [gap];
    assert FirstBlocking([gap]) == if Blocking(gap) then Some(gap) else FirstBlocking([]);
  }

  lemma AcceptedOneMore(world: World, db: Schedule, children: seq<Reservation>, h: Reservation)
    requires Accepted(world, db, children) && AcceptedHold(world, Plus(db, children), h)
    ensures Accepted(world, db, children + [h])
  {
    var more := children + [h];
    forall k | 0 <= k < |more| ensures AcceptedAt(world, db, more, k) {
      if k < |children| {
        assert more[..k] == children[..k] && AcceptedAt(world, db, children, k);
      } else {
        assert more[..k] == children;
      }
    }
  }

  lemma HeldOnceMore(initial: set<int>, run: Run, after: Run, h: Reservation)
    requires HeldOnce(initial, run) && h.resource !in run.used
    requires after.used == run.used + {h.resource} && after.children == run.children + [h]
    ensures HeldOnce(initial, after)
  {
    forall g | g in run.children ensures g.resource in run.used - initial {
    }
    forall i, j | 0 <= i < j < |after.children| ensures after.children[i].resource != after.children[j].resource {
      assert i < |run.children| && run.children[i] in run.children;
    }
    forall x ensures x in after.used - initial <==> exists g :: g in after.children && g.resource == x {
      assert forall g :: g in after.children <==> g in run.children || g == h;
      if x == h.resource {
        assert h in after.children;
      } else {
        assert x in after.used - initial <==> x in run.used - initial;
      }
    }
  }

  lemma TwinsHold(ctx: Context, parents: seq<Reservation>, initial: set<int>, d: Run, r: Run, resource: Resource, w: Window, quantity: int)
    requires ctx.dry && Twins(ctx, parents, initial, d, r)
    requires resource.id in ctx.world.resources && ctx.world.resources[resource.id] == resource
    requires resource.id !in r.used && Proper(w) && quantity >= 1
    requires ProblemOf(Seen(RealOf(ctx, parents), r), resource, w, quantity).None?
    ensures Twins(ctx, parents, initial, Hold(ctx, d, resource, w, quantity), Hold(RealOf(ctx, parents), r, resource, w, quantity))
  {
    var live := RealOf(ctx, parents);
    var child := Child(live, r, resource, w, quantity);
    NextIdIsNew(Seen(live, r).reservations);
    AcceptedOneMore(ctx.world, live.world.schedule, r.children, child);
    HeldOnceMore(initial, r, Hold(live, r, resource, w, quantity), child);
  }

  // ---------------------------------------------------------------- the walk

  lemma {:induction false} AgreeOwners(ctx: Context, parents: seq<Reservation>, initial: set<int>, d: Run, r: Run, owners: seq<Owner>, w: Window, depth: int)
    requires ctx.dry && Consistent(ctx.world) && Proper(w) && depth <= MAX_DEPTH + 1
    requires Twins(ctx, parents, initial, d, r)
    ensures Agree(ctx, parents, initial, d, WalkOwners(ctx, d, owners, w, depth), WalkOwners(RealOf(ctx, parents), r, owners, w, depth))
    decreases MAX_DEPTH + 1 - depth, 6, |owners|
  {
    if owners != [] {
      var live := RealOf(ctx, parents);
      var rows := RowsOf(ctx.world, owners[0]);
      assert RowsOf(live.world, owners[0]) == rows;
      AgreeRows(ctx, parents, initial, d, r, rows, w, depth);
      var d1, r1 := WalkRows(ctx, d, rows, w, depth), WalkRows(live, r, rows, w, depth);
      if d1.Done? {
        var d2 := WalkOwners(ctx, d1.value, owners[1..], w, depth);
        if r1.Done? {
          AgreeOwners(ctx, parents, initial, d1.value, r1.value, owners[1..], w, depth);
        } else {
          OwnersOnlyAdd(ctx, d1.value, owners[1..], w, depth);
        }
        AgreeThen(ctx, parents, initial, d, d1.value, r1, d2, WalkOwners(live, r, owners, w, depth));
      }
    }
  }

  lemma {:induction false} AgreeRows(ctx: Context, parents: seq<Reservation>, initial: set<int>, d: Run, r: Run, rows: seq<Requirement>, w: Window, depth: int)
    requires ctx.dry && Consistent(ctx.world) && Proper(w) && depth <= MAX_DEPTH + 1
    requires Twins(ctx, parents, initial, d, r) && forall row :: row in rows ==> row.quantity >= 1
    ensures Agree(ctx, parents, initial, d, WalkRows(ctx, d, rows, w, depth), WalkRows(RealOf(ctx, parents), r, rows, w, depth))
    decreases MAX_DEPTH + 1 - depth, 5, |rows|
  {
    if rows != [] {
      var live := RealOf(ctx, parents);
      AgreeRow(ctx, parents, initial, d, r, rows[0], w, depth);
      var d1, r1 := WalkRow(ctx, d, rows[0], w, depth), WalkRow(live, r, rows[0], w, depth);
      if d1.Done? {
        var d2 := WalkRows(ctx, d1.value, rows[1..], w, depth);
        if r1.Done? {
          AgreeRows(ctx, parents, initial, d1.value, r1.value, rows[1..], w, depth);
        } else {
          RowsOnlyAdd(ctx, d1.value, rows[1..], w, depth);
        }
        AgreeThen(ctx, parents, initial, d, d1.value, r1, d2, WalkRows(live, r, rows, w, depth));
      }
    }
  }

  lemma {:induction false} AgreeRow(ctx: Context, parents: seq<Reservation>, initial: set<int>, d: Run, r: Run, row: Requirement, w: Window, depth: int)
    requires ctx.dry && Consistent(ctx.world) && Proper(w) && depth <= MAX_DEPTH + 1
    requires Twins(ctx, parents, initial, d, r) && row.quantity >= 1
    ensures Agree(ctx, parents, initial, d, WalkRow(ctx, d, row, w, depth), WalkRow(RealOf(ctx, parents), r, row, w, depth))
    decreases MAX_DEPTH + 1 - depth, 4, 0
  {
    if depth > MAX_DEPTH {
      AgreeMiss(ctx, parents, initial, d, r, row, Problem(TooDeep, []), 1);
    } else {
      var padded := Padded(w, row.before, row.after);
      if padded.None? {
        var gap := Gap(row, 1, EnforcementOf(ctx, row), CrossesMidnight, []);
        assert WalkRow(ctx, d, row, w, depth).value.unmet[|d.unmet|..] == [gap];
      } else {
        PaddedProper(w, row.before, row.after);
        match row.target
        case Named(target) => AgreeNamed(ctx, parents, initial, d, r, row, target, padded.value, depth);
        case OfKind(kind) => AgreeKind(ctx, parents, initial, d, r, row, kind, padded.value, depth);
      }
    }
  }

  lemma {:induction false} AgreeHold(ctx: Context, parents: seq<Reservation>, initial: set<int>, d: Run, r: Run, resource: Resource, w: Window, quantity: int, depth: int)
    requires ctx.dry && Consistent(ctx.world) && Proper(w) && depth <= MAX_DEPTH
    requires Twins(ctx, parents, initial, d, r)
    requires resource.id in ctx.world.resources && ctx.world.resources[resource.id] == resource
    requires resource.id !in r.used && quantity >= 1
    requires ProblemOf(Seen(ctx, d), resource, w, quantity).None?
    ensures Agree(ctx, parents, initial, d, HoldAndWalk(ctx, d, resource, w, quantity, depth),
                  HoldAndWalk(RealOf(ctx, parents), r, resource, w, quantity, depth))
    decreases MAX_DEPTH + 1 - depth, 0, 0
  {
    FreeAlike(ctx, parents, initial, d, r, resource, w, quantity);
    TwinsHold(ctx, parents, initial, d, r, resource, w, quantity);
    AgreeOwners(ctx, parents, initial, Hold(ctx, d, resource, w, quantity),
                Hold(RealOf(ctx, parents), r, resource, w, quantity), [ResourceOwner(resource.id)], w, depth + 1);
  }

  lemma {:induction false} AgreeNamed(ctx: Context, parents: seq<Reservation>, initial: set<int>, d: Run, r: Run, row: Requirement, target: int, w: Window, depth: int)
    requires ctx.dry && Consistent(ctx.world) && Proper(w) && depth <= MAX_DEPTH
    requires Twins(ctx, parents, initial, d, r) && row.quantity >= 1
    ensures Agree(ctx, parents, initial, d, NeedNamed(ctx, d, row, target, w, depth), NeedNamed(RealOf(ctx, parents), r, row, target, w, depth))
    decreases MAX_DEPTH + 1 - depth, 1, 0
  {
    if target !in ctx.world.resources {
      AgreeMiss(ctx, parents, initial, d, r, row, Problem(Gone, []), 1);
    } else {
      var resource := ctx.world.resources[target];
      if resource.id in r.used {
        AgreeMiss(ctx, parents, initial, d, r, row, Problem(AlreadyUsed, []), 1);
      } else {
        var quantity := if resource.mode.Pooled? then row.quantity else 1;
        FreeAlike(ctx, parents, initial, d, r, resource, w, quantity);
        var problem := ProblemOf(Seen(ctx, d), resource, w, quantity);
        if problem.Some? {
          AgreeMiss(ctx, parents, initial, d, r, row, problem.value, 1);
        } else {
          AgreeHold(ctx, parents, initial, d, r, resource, w, quantity, depth);
        }
      }
    }
  }

  /** The run inside a tally, when the two tallies stand alike. */
  function RunIn(t: Result<Tally>): Result<Run> {
    match t case Done(tally) => Done(tally.run) case Stopped(why) => Stopped(why)
  }

  ghost predicate SameTally(dry: Result<Tally>, live: Result<Tally>) {
    dry.Done? && live.Done? ==> dry.value.got == live.value.got && dry.value.seen == live.value.seen
  }

  lemma {:induction false} AgreeAssigned(ctx: Context, parents: seq<Reservation>, initial: set<int>, d: Tally, r: Tally, quantity: int, kind: string, w: Window, depth: int)
    requires ctx.dry && Consistent(ctx.world) && Proper(w) && depth <= MAX_DEPTH
    requires Twins(ctx, parents, initial, d.run, r.run) && d.got == r.got && d.seen == r.seen
    ensures Agree(ctx, parents, initial, d.run, RunIn(FromAssigned(ctx, d, quantity, kind, w, depth)),
                  RunIn(FromAssigned(RealOf(ctx, parents), r, quantity, kind, w, depth)))
    ensures SameTally(FromAssigned(ctx, d, quantity, kind, w, depth), FromAssigned(RealOf(ctx, parents), r, quantity, kind, w, depth))
    decreases MAX_DEPTH + 1 - depth, 1, quantity - d.got - |d.seen|
  {
    var live := RealOf(ctx, parents);
    if d.got + |d.seen| < quantity && Waiting(d.run, kind) != [] {
      var id := Waiting(d.run, kind)[0];
      var dp := d.run.(choices := d.run.choices[kind := Waiting(d.run, kind)[1..]]);
      var rp := r.run.(choices := r.run.choices[kind := Waiting(r.run, kind)[1..]]);
      assert Twins(ctx, parents, initial, dp, rp);
      if id in ctx.world.resources {
        var resource := ctx.world.resources[id];
        if id in rp.used {
          AgreeAssigned(ctx, parents, initial, Tally(dp, d.got, d.seen + [Problem(AlreadyUsed, [])]),
                        Tally(rp, r.got, r.seen + [Problem(AlreadyUsed, [])]), quantity, kind, w, depth);
        } else {
          FreeAlike(ctx, parents, initial, dp, rp, resource, w, 1);
          var problem := ProblemOf(Seen(ctx, dp), resource, w, 1);
          if problem.Some? {
            AgreeAssigned(ctx, parents, initial, Tally(dp, d.got, d.seen + [problem.value]),
                          Tally(rp, r.got, r.seen + [problem.value]), quantity, kind, w, depth);
          } else {
            AgreeHold(ctx, parents, initial, dp, rp, resource, w, 1, depth);
            var d1, r1 := HoldAndWalk(ctx, dp, resource, w, 1, depth), HoldAndWalk(live, rp, resource, w, 1, depth);
            if d1.Done? {
              var d2 := FromAssigned(ctx, Tally(d1.value, d.got + 1, d.seen), quantity, kind, w, depth);
              if r1.Done? {
                AgreeAssigned(ctx, parents, initial, Tally(d1.value, d.got + 1, d.seen), Tally(r1.value, r.got + 1, r.seen), quantity, kind, w, depth);
              } else {
                AssignedOnlyAdds(ctx, Tally(d1.value, d.got + 1, d.seen), quantity, kind, w, depth);
              }
              AgreeThen(ctx, parents, initial, dp, d1.value, r1, RunIn(d2), RunIn(FromAssigned(live, r, quantity, kind, w, depth)));
            }
          }
        }
      }
    } else {
      assert d.run.unmet[|d.run.unmet|..] == [];
    }
  }

  lemma {:induction false} AgreeCatalogue(ctx: Context, parents: seq<Reservation>, initial: set<int>, d: Tally, r: Tally, quantity: int, candidates: seq<int>, w: Window, depth: int)
    requires ctx.dry && Consistent(ctx.world) && Proper(w) && depth <= MAX_DEPTH
    requires Twins(ctx, parents, initial, d.run, r.run) && d.got == r.got && d.seen == r.seen
    ensures Agree(ctx, parents, initial, d.run, RunIn(FromCatalogue(ctx, d, quantity, candidates, w, depth)),
                  RunIn(FromCatalogue(RealOf(ctx, parents), r, quantity, candidates, w, depth)))
    ensures SameTally(FromCatalogue(ctx, d, quantity, candidates, w, depth), FromCatalogue(RealOf(ctx, parents), r, quantity, candidates, w, depth))
    decreases MAX_DEPTH + 1 - depth, 1, |candidates|
  {
    var live := RealOf(ctx, parents);
    if candidates == [] || quantity <= d.got + |d.seen| {
      assert d.run.unmet[|d.run.unmet|..] == [];
    } else {
      var id := candidates[0];
      if id in d.run.used || id in ctx.named || id !in ctx.world.resources {
        AgreeCatalogue(ctx, parents, initial, d, r, quantity, candidates[1..], w, depth);
      } else {
        var resource := ctx.world.resources[id];
        FreeAlike(ctx, parents, initial, d.run, r.run, resource, w, 1);
        if ProblemOf(Seen(ctx, d.run), resource, w, 1).Some? {
          AgreeCatalogue(ctx, parents, initial, d, r, quantity, candidates[1..], w, depth);
        } else {
          AgreeHold(ctx, parents, initial, d.run, r.run, resource, w, 1, depth);
          var d1, r1 := HoldAndWalk(ctx, d.run, resource, w, 1, depth), HoldAndWalk(live, r.run, resource, w, 1, depth);
          if d1.Done? {
            var d2 := FromCatalogue(ctx, Tally(d1.value, d.got + 1, d.seen), quantity, candidates[1..], w, depth);
            if r1.Done? {
              AgreeCatalogue(ctx, parents, initial, Tally(d1.value, d.got + 1, d.seen), Tally(r1.value, r.got + 1, r.seen), quantity, candidates[1..], w, depth);
            } else {
              CatalogueOnlyAdds(ctx, Tally(d1.value, d.got + 1, d.seen), quantity, candidates[1..], w, depth);
            }
            AgreeThen(ctx, parents, initial, d.run, d1.value, r1, RunIn(d2), RunIn(FromCatalogue(live, r, quantity, candidates, w, depth)));
          }
        }
      }
    }
  }

  lemma {:induction false} AgreeKind(ctx: Context, parents: seq<Reservation>, initial: set<int>, d: Run, r: Run, row: Requirement, kind: string, w: Window, depth: int)
    requires ctx.dry && Consistent(ctx.world) && Proper(w) && depth <= MAX_DEPTH
    requires Twins(ctx, parents, initial, d, r) && row.quantity >= 1
    ensures Agree(ctx, parents, initial, d, NeedKind(ctx, d, row, kind, w, depth), NeedKind(RealOf(ctx, parents), r, row, kind, w, depth))
    decreases MAX_DEPTH + 1 - depth, 3, 0
  {
    var live := RealOf(ctx, parents);
    AgreeAssigned(ctx, parents, initial, Tally(d, 0, []), Tally(r, 0, []), row.quantity, kind, w, depth);
    var d1, r1 := FromAssigned(ctx, Tally(d, 0, []), row.quantity, kind, w, depth), FromAssigned(live, Tally(r, 0, []), row.quantity, kind, w, depth);
    if d1.Done? {
      var d2 := FillAndReport(ctx, d1.value, row, kind, w, depth);
      if r1.Done? {
        AgreeFill(ctx, parents, initial, d1.value, r1.value, row, kind, w, depth);
      } else {
        FillOnlyAdds(ctx, d1.value, row, kind, w, depth);
      }
      AgreeThen(ctx, parents, initial, d, d1.value.run, RunIn(r1), d2, NeedKind(live, r, row, kind, w, depth));
    }
  }

  lemma {:induction false} AgreeFilled(ctx: Context, parents: seq<Reservation>, initial: set<int>, d: Tally, r: Tally, quantity: int, kind: string, w: Window, depth: int)
    requires ctx.dry && Consistent(ctx.world) && Proper(w) && depth <= MAX_DEPTH
    requires Twins(ctx, parents, initial, d.run, r.run) && d.got == r.got && d.seen == r.seen
    ensures Agree(ctx, parents, initial, d.run, RunIn(Filled(ctx, d, quantity, kind, w, depth)), RunIn(Filled(RealOf(ctx, parents), r, quantity, kind, w, depth)))
    ensures SameTally(Filled(ctx, d, quantity, kind, w, depth), Filled(RealOf(ctx, parents), r, quantity, kind, w, depth))
    decreases MAX_DEPTH + 1 - depth, 1, |Candidates(ctx.world, kind)| + 1
  {
    assert Candidates(RealOf(ctx, parents).world, kind) == Candidates(ctx.world, kind);
    if d.got + |d.seen| < quantity {
      AgreeCatalogue(ctx, parents, initial, d, r, quantity, Candidates(ctx.world, kind), w, depth);
    } else {
      assert d.run.unmet[|d.run.unmet|..] == [];
    }
  }

  lemma AgreeReported(ctx: Context, parents: seq<Reservation>, initial: set<int>, d: Tally, r: Tally, row: Requirement)
    requires ctx.dry && Twins(ctx, parents, initial, d.run, r.run) && d.got == r.got && d.seen == r.seen
    ensures Agree(ctx, parents, initial, d.run, Reported(ctx, d, row), Reported(RealOf(ctx, parents), r, row))
  {
    if d.got == row.quantity {
      assert d.run.unmet[|d.run.unmet|..] == [];
    } else {
      AgreeMiss(ctx, parents, initial, d.run, r.run, row, ShortOf(d, row.quantity), row.quantity - d.got);
    }
  }

  lemma {:induction false} AgreeFill(ctx: Context, parents: seq<Reservation>, initial: set<int>, d: Tally, r: Tally, row: Requirement, kind: string, w: Window, depth: int)
    requires ctx.dry && Consistent(ctx.world) && Proper(w) && depth <= MAX_DEPTH
    requires Twins(ctx, parents, initial, d.run, r.run) && d.got == r.got && d.seen == r.seen
    ensures Agree(ctx, parents, initial, d.run, FillAndReport(ctx, d, row, kind, w, depth), FillAndReport(RealOf(ctx, parents), r, row, kind, w, depth))
    decreases MAX_DEPTH + 1 - depth, 2, 0
  {
    var live := RealOf(ctx, parents);
    AgreeFilled(ctx, parents, initial, d, r, row.quantity, kind, w, depth);
    var d1, r1 := Filled(ctx, d, row.quantity, kind, w, depth), Filled(live, r, row.quantity, kind, w, depth);
    if d1.Done? {
      if r1.Done? {
        AgreeReported(ctx, parents, initial, d1.value, r1.value, row);
      }
      AgreeThen(ctx, parents, initial, d.run, d1.value.run, RunIn(r1), Reported(ctx, d1.value, row), FillAndReport(live, r, row, kind, w, depth));
    }
  }

  // ---------------------------------------------------------------- a dry walk only adds gaps

  ghost predicate OnlyAdds(d: Run, after: Result<Run>) {
    after.Done? ==> d.unmet <= after.value.unmet
  }

  lemma {:induction false} OwnersOnlyAdd(ctx: Context, d: Run, owners: seq<Owner>, w: Window, depth: int)
    requires ctx.dry && depth <= MAX_DEPTH + 1
    ensures OnlyAdds(d, WalkOwners(ctx, d, owners, w, depth))
    decreases MAX_DEPTH + 1 - depth, 6, |owners|
  {
    if owners != [] {
      var rows := RowsOf(ctx.world, owners[0]);
      RowsOnlyAdd(ctx, d, rows, w, depth);
      var d1 := WalkRows(ctx, d, rows, w, depth);
      if d1.Done? {
        OwnersOnlyAdd(ctx, d1.value, owners[1..], w, depth);
      }
    }
  }

  lemma {:induction false} RowsOnlyAdd(ctx: Context, d: Run, rows: seq<Requirement>, w: Window, depth: int)
    requires ctx.dry && depth <= MAX_DEPTH + 1
    ensures OnlyAdds(d, WalkRows(ctx, d, rows, w, depth))
    decreases MAX_DEPTH + 1 - depth, 5, |rows|
  {
    if rows != [] {
      RowOnlyAdds(ctx, d, rows[0], w, depth);
      var d1 := WalkRow(ctx, d, rows[0], w, depth);
      if d1.Done? {
        RowsOnlyAdd(ctx, d1.value, rows[1..], w, depth);
      }
    }
  }

  lemma {:induction false} RowOnlyAdds(ctx: Context, d: Run, row: Requirement, w: Window, depth: int)
    requires ctx.dry && depth <= MAX_DEPTH + 1
    ensures OnlyAdds(d, WalkRow(ctx, d, row, w, depth))
    decreases MAX_DEPTH + 1 - depth, 4, 0
  {
    if depth <= MAX_DEPTH && Padded(w, row.before, row.after).Some? {
      var padded := Padded(w, row.before, row.after).value;
      match row.target
      case Named(target) =>
        if target in ctx.world.resources {
          var resource := ctx.world.resources[target];
          HoldOnlyAdds(ctx, d, resource, padded, if resource.mode.Pooled? then row.quantity else 1, depth);
        }
      case OfKind(kind) =>
        AssignedOnlyAdds(ctx, Tally(d, 0, []), row.quantity, kind, padded, depth);
        var d1 := FromAssigned(ctx, Tally(d, 0, []), row.quantity, kind, padded, depth);
        if d1.Done? {
          FillOnlyAdds(ctx, d1.value, row, kind, padded, depth);
        }
    }
  }

  lemma {:induction false} HoldOnlyAdds(ctx: Context, d: Run, resource: Resource, w: Window, quantity: int, depth: int)
    requires ctx.dry && depth <= MAX_DEPTH
    ensures OnlyAdds(d, HoldAndWalk(ctx, d, resource, w, quantity, depth))
    decreases MAX_DEPTH + 1 - depth, 0, 0
  {
    OwnersOnlyAdd(ctx, Hold(ctx, d, resource, w, quantity), [ResourceOwner(resource.id)], w, depth + 1);
  }

  lemma {:induction false} AssignedOnlyAdds(ctx: Context, d: Tally, quantity: int, kind: string, w: Window, depth: int)
    requires ctx.dry && depth <= MAX_DEPTH
    ensures OnlyAdds(d.run, RunIn(FromAssigned(ctx, d, quantity, kind, w, depth)))
    decreases MAX_DEPTH + 1 - depth, 1, quantity - d.got - |d.seen|
  {
    if d.got + |d.seen| < quantity && Waiting(d.run, kind) != [] && Waiting(d.run, kind)[0] in ctx.world.resources {
      var resource := ctx.world.resources[Waiting(d.run, kind)[0]];
      var dp := d.run.(choices := d.run.choices[kind := Waiting(d.run, kind)[1..]]);
      var problem := if resource.id in dp.used then Some(Problem(AlreadyUsed, [])) else ProblemOf(Seen(ctx, dp), resource, w, 1);
      if problem.Some? {
        AssignedOnlyAdds(ctx, Tally(dp, d.got, d.seen + [problem.value]), quantity, kind, w, depth);
      } else {
        HoldOnlyAdds(ctx, dp, resource, w, 1, depth);
        var d1 := HoldAndWalk(ctx, dp, resource, w, 1, depth);
        if d1.Done? {
          AssignedOnlyAdds(ctx, Tally(d1.value, d.got + 1, d.seen), quantity, kind, w, depth);
        }
      }
    }
  }

  lemma {:induction false} CatalogueOnlyAdds(ctx: Context, d: Tally, quantity: int, candidates: seq<int>, w: Window, depth: int)
    requires ctx.dry && depth <= MAX_DEPTH
    ensures OnlyAdds(d.run, RunIn(FromCatalogue(ctx, d, quantity, candidates, w, depth)))
    decreases MAX_DEPTH + 1 - depth, 1, |candidates|
  {
    if candidates != [] && d.got + |d.seen| < quantity {
      var id := candidates[0];
      CatalogueOnlyAdds(ctx, d, quantity, candidates[1..], w, depth);
      if id in ctx.world.resources {
        HoldOnlyAdds(ctx, d.run, ctx.world.resources[id], w, 1, depth);
        var d1 := HoldAndWalk(ctx, d.run, ctx.world.resources[id], w, 1, depth);
        if d1.Done? {
          CatalogueOnlyAdds(ctx, Tally(d1.value, d.got + 1, d.seen), quantity, candidates[1..], w, depth);
        }
      }
    }
  }

  lemma {:induction false} FillOnlyAdds(ctx: Context, d: Tally, row: Requirement, kind: string, w: Window, depth: int)
    requires ctx.dry && depth <= MAX_DEPTH
    ensures OnlyAdds(d.run, FillAndReport(ctx, d, row, kind, w, depth))
    decreases MAX_DEPTH + 1 - depth, 2, 0
  {
    CatalogueOnlyAdds(ctx, d, row.quantity, Candidates(ctx.world, kind), w, depth);
  }

  // ---------------------------------------------------------------- the two resolves

  /** With the parent's resource in used, a real resolve succeeds exactly when the dry one does and
      lists nothing blocking; it then lists the same gaps and holds, each once, exactly the resources
      the dry run noted. Otherwise it stops at the first blocking gap of the dry list. */
  lemma DryAndRealAgree(ctx: Context, parents: seq<Reservation>, used: set<int>, choices: map<string, seq<int>>, owners: seq<Owner>, w: Window)
    requires ctx.dry && Consistent(ctx.world) && Proper(w)
    requires forall h :: h in parents ==> h.resource in used
    ensures var start := Run(used, choices, [], []);
            var dry, live := Resolve(ctx, start, owners, w), Resolve(RealOf(ctx, parents), start, owners, w);
            && (live.Done? <==> dry.Done? && forall g :: g in dry.value.unmet ==> !Blocking(g))
            && (live.Done? ==> && live.value.unmet == dry.value.unmet
                               && live.value.used == dry.value.used
                               && HeldOnce(used, live.value)
                               && Accepted(ctx.world, Plus(ctx.world.schedule, parents), live.value.children))
            && (dry.Done? && FirstBlocking(dry.value.unmet).Some? ==>
                  live == Stopped(StopFor(FirstBlocking(dry.value.unmet).value)))
  {
    var start := Run(used, choices, [], []);
    assert Twins(ctx, parents, used, start, start);
    AgreeOwners(ctx, parents, used, start, start, owners, w, 1);
    var dry := WalkOwners(ctx, start, owners, w, 1);
    if dry.Done? {
      assert dry.value.unmet[|start.unmet|..] == dry.value.unmet;
      FirstBlockingNone(dry.value.unmet);
    }
  }
}
