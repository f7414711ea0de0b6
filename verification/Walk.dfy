/** What a booking walk computes (backend/app/services/requirements.py: _problem, _miss, _hold,
    _walk, _named, _kind, resolve), as functions from one run to the next. The object that the
    source updates in place is in Walker.dfy and is proved to do what these say. */
module Walk {
  import opened Sequences
  import opened Time
  import opened Tables
  import opened Pool
  import opened Availability
  import opened Requirements
  import opened Padding

  const MAX_DEPTH: int := 4

  datatype Reason =
    | TooDeep | CrossesMidnight | Gone | AlreadyUsed | Inactive | Taken | TakenByTimetable
    | NotEnough(units: int)
    | Short(first: Option<Reason>, missing: int, quantity: int)

  datatype Problem = Problem(reason: Reason, conflicts: seq<Entry>)

  /** One unmet requirement, as it is listed. */
  datatype Gap = Gap(requirement: Requirement, missing: int, enforcement: Enforcement, reason: Reason, conflicts: seq<Entry>)

  datatype Stop =
    | Unsatisfied(requirement: int, reason: Reason, conflicts: seq<Entry>)  // 409 REQUIREMENT_UNSATISFIED
    | PaddingCrosses(requirement: int)                                      // 422
    | NotAskedFor(left: set<int>)                                           // 422, assignments left over
    | NoSuchResource(id: int)                                               // an assignment that names nothing

  datatype Result<+T> = Done(value: T) | Stopped(why: Stop) {
    predicate IsFailure() { Stopped? }
    function PropagateFailure<U>(): Result<U> requires Stopped? { Stopped(why) }
    function Extract(): T requires Done? { value }
  }

  /** The tables a walk reads. Requirements are in id order, the catalogue in (code, id) order. */
  datatype World = World(resources: map<int, Resource>, catalogue: seq<int>, requirements: seq<Requirement>,
                         schedule: Schedule, default: Enforcement)

  /** What stays fixed during a walk: the tables, the resources the caller named, and whether it is dry. */
  datatype Context = Context(world: World, named: set<int>, dry: bool)

  /** What a walk changes. */
  datatype Run = Run(used: set<int>, choices: map<string, seq<int>>, children: seq<Reservation>, unmet: seq<Gap>)

  /** The schedule with more bookings in it. */
  function Plus(db: Schedule, more: seq<Reservation>): Schedule {
    db.(reservations := db.reservations + more)
  }

  /** The tables as the next check of this walk sees them: its own children are flushed. */
  function Seen(ctx: Context, run: Run): Schedule {
    Plus(ctx.world.schedule, run.children)
  }

  /** The availability test the walk makes of each resource, with the conflicts it would report. */
  function ProblemOf(db: Schedule, resource: Resource, w: Window, quantity: int): Option<Problem> {
    if !resource.active then Some(Problem(Inactive, []))
    else match resource.mode
      case Shared => None
      case Exclusive =>
        var clashes := WindowConflicts(db, resource.id, w, true);
        if clashes != [] then Some(Problem(Taken, clashes)) else None
      case Pooled =>
        var clashes := WindowConflicts(db, resource.id, w, false);
        if clashes != [] then Some(Problem(TakenByTimetable, clashes))
        else if resource.capacity < PoolTaken(db, resource.id, w) + quantity then
          Some(Problem(NotEnough(quantity), OccupiedOf([], PoolHolds(db, resource.id, w), [], w.day, LastDate(w))))
        else None
  }

  function EnforcementOf(ctx: Context, row: Requirement): Enforcement {
    if row.enforcement.Some? then row.enforcement.value else ctx.world.default
  }

  /** Refuse, or list the gap: a dry run never refuses. */
  function Miss(ctx: Context, run: Run, row: Requirement, problem: Problem, missing: int): Result<Run> {
    if EnforcementOf(ctx, row).Required? && !ctx.dry then
      Stopped(Unsatisfied(row.id, problem.reason, problem.conflicts))
    else
      Done(run.(unmet := run.unmet + [Gap(row, missing, EnforcementOf(ctx, row), problem.reason, problem.conflicts)]))
  }

  /** The id the table gives the next booking. */
  function NextId(rows: seq<Reservation>): int {
    if rows == [] then 1
    else
      var next := NextId(rows[..|rows| - 1]);
      if next <= rows[|rows| - 1].id then rows[|rows| - 1].id + 1 else next
  }

  function Child(ctx: Context, run: Run, resource: Resource, w: Window, quantity: int): Reservation {
    Reservation(NextId(Seen(ctx, run).reservations), resource.id, w, quantity, resource.mode, true)
  }

  /** Adds the resource to used, and its row to children unless the context is dry. */
  function Hold(ctx: Context, run: Run, resource: Resource, w: Window, quantity: int): Run {
    var noted := run.(used := run.used + {resource.id});
    if ctx.dry then noted else noted.(children := run.children + [Child(ctx, run, resource, w, quantity)])
  }

  function RowsOf(world: World, owner: Owner): seq<Requirement> {
    Filter(world.requirements, (r: Requirement) => r.owner == owner)
  }

  function WalkOwners(ctx: Context, run: Run, owners: seq<Owner>, w: Window, depth: int): Result<Run>
    requires depth <= MAX_DEPTH + 1
    decreases MAX_DEPTH + 1 - depth, 6, |owners|
  {
    if owners == [] then Done(run)
    else
      var after :- WalkRows(ctx, run, RowsOf(ctx.world, owners[0]), w, depth);
      WalkOwners(ctx, after, owners[1..], w, depth)
  }

  function WalkRows(ctx: Context, run: Run, rows: seq<Requirement>, w: Window, depth: int): Result<Run>
    requires depth <= MAX_DEPTH + 1
    decreases MAX_DEPTH + 1 - depth, 5, |rows|
  {
    if rows == [] then Done(run)
    else
      var after :- WalkRow(ctx, run, rows[0], w, depth);
      WalkRows(ctx, after, rows[1..], w, depth)
  }

  function WalkRow(ctx: Context, run: Run, row: Requirement, w: Window, depth: int): Result<Run>
    requires depth <= MAX_DEPTH + 1
    decreases MAX_DEPTH + 1 - depth, 4, 0
  {
    if depth > MAX_DEPTH then Miss(ctx, run, row, Problem(TooDeep, []), 1)
    else
      var padded := Padded(w, row.before, row.after);
      if padded.None? then
        if ctx.dry then Miss(ctx, run, row, Problem(CrossesMidnight, []), 1) else Stopped(PaddingCrosses(row.id))
      else match row.target
        case Named(target) => NeedNamed(ctx, run, row, target, padded.value, depth)
        case OfKind(kind) => NeedKind(ctx, run, row, kind, padded.value, depth)
  }

  /** Hold a resource, then walk what it needs in turn. */
  function HoldAndWalk(ctx: Context, run: Run, resource: Resource, w: Window, quantity: int, depth: int): Result<Run>
    requires depth <= MAX_DEPTH
    decreases MAX_DEPTH + 1 - depth, 0, 0
  {
    WalkOwners(ctx, Hold(ctx, run, resource, w, quantity), [ResourceOwner(resource.id)], w, depth + 1)
  }

  function NeedNamed(ctx: Context, run: Run, row: Requirement, target: int, w: Window, depth: int): Result<Run>
    requires depth <= MAX_DEPTH
    decreases MAX_DEPTH + 1 - depth, 1, 0
  {
    if target !in ctx.world.resources then Miss(ctx, run, row, Problem(Gone, []), 1)
    else
      var resource := ctx.world.resources[target];
      if resource.id in run.used then Miss(ctx, run, row, Problem(AlreadyUsed, []), 1)
      else
        var quantity := if resource.mode.Pooled? then row.quantity else 1;
        var problem := ProblemOf(Seen(ctx, run), resource, w, quantity);
        if problem.Some? then Miss(ctx, run, row, problem.value, 1)
        else HoldAndWalk(ctx, run, resource, w, quantity, depth)
  }

  /** How far a kind has been filled: how many are held, and why the ones that are not are not. */
  datatype Tally = Tally(run: Run, got: int, seen: seq<Problem>)

  function NeedKind(ctx: Context, run: Run, row: Requirement, kind: string, w: Window, depth: int): Result<Run>
    requires depth <= MAX_DEPTH
    decreases MAX_DEPTH + 1 - depth, 3, 0
  {
    var named :- FromAssigned(ctx, Tally(run, 0, []), row.quantity, kind, w, depth);
    FillAndReport(ctx, named, row, kind, w, depth)
  }

  /** Once the caller's choices are used up: fill from the catalogue, then list what is still missing. */
  function FillAndReport(ctx: Context, named: Tally, row: Requirement, kind: string, w: Window, depth: int): Result<Run>
    requires depth <= MAX_DEPTH
    decreases MAX_DEPTH + 1 - depth, 2, 0
  {
    var picked :- Filled(ctx, named, row.quantity, kind, w, depth);
    Reported(ctx, picked, row)
  }

  function Filled(ctx: Context, named: Tally, quantity: int, kind: string, w: Window, depth: int): Result<Tally>
    requires depth <= MAX_DEPTH
    decreases MAX_DEPTH + 1 - depth, 1, |Candidates(ctx.world, kind)| + 1
  {
    if named.got + |named.seen| < quantity then FromCatalogue(ctx, named, quantity, Candidates(ctx.world, kind), w, depth)
    else Done(named)
  }

  function Reported(ctx: Context, picked: Tally, row: Requirement): Result<Run> {
    if picked.got == row.quantity then Done(picked.run)
    else Miss(ctx, picked.run, row, ShortOf(picked, row.quantity), row.quantity - picked.got)
  }

  function Candidates(world: World, kind: string): seq<int> {
    Filter(world.catalogue, (id: int) => id in world.resources && world.resources[id].kind == kind && world.resources[id].active)
  }

  function ShortOf(t: Tally, quantity: int): Problem {
    Problem(Short(if t.seen == [] then None else Some(t.seen[0].reason), quantity - t.got, quantity), AllConflicts(t.seen))
  }

  function AllConflicts(seen: seq<Problem>): seq<Entry> {
    if seen == [] then [] else AllConflicts(seen[..|seen| - 1]) + seen[|seen| - 1].conflicts
  }

  /** The caller's assignments left under a kind. Nested walks take from the same list. */
  function Waiting(run: Run, kind: string): seq<int> {
    if kind in run.choices then run.choices[kind] else []
  }

  /** Consumes choices[kind] from the front; a refused one goes to seen and counts against the quantity. */
  function FromAssigned(ctx: Context, t: Tally, quantity: int, kind: string, w: Window, depth: int): Result<Tally>
    requires depth <= MAX_DEPTH
    decreases MAX_DEPTH + 1 - depth, 1, quantity - t.got - |t.seen|
  {
    if quantity <= t.got + |t.seen| || Waiting(t.run, kind) == [] then Done(t)
    else
      var id := Waiting(t.run, kind)[0];
      var popped := t.run.(choices := t.run.choices[kind := Waiting(t.run, kind)[1..]]);
      if id !in ctx.world.resources then Stopped(NoSuchResource(id))
      else
        var resource := ctx.world.resources[id];
        var problem := if resource.id in popped.used then Some(Problem(AlreadyUsed, []))
                       else ProblemOf(Seen(ctx, popped), resource, w, 1);
        if problem.Some? then FromAssigned(ctx, Tally(popped, t.got, t.seen + [problem.value]), quantity, kind, w, depth)
        else
          var after :- HoldAndWalk(ctx, popped, resource, w, 1, depth);
          FromAssigned(ctx, Tally(after, t.got + 1, t.seen), quantity, kind, w, depth)
  }

  /** Fills what is left from the candidates in order, passing over any that is used, chosen or refused. */
  function FromCatalogue(ctx: Context, t: Tally, quantity: int, candidates: seq<int>, w: Window, depth: int): Result<Tally>
    requires depth <= MAX_DEPTH
    decreases MAX_DEPTH + 1 - depth, 1, |candidates|
  {
    if candidates == [] || quantity <= t.got + |t.seen| then Done(t)
    else
      var id := candidates[0];
      if id in t.run.used || id in ctx.named || id !in ctx.world.resources
         || ProblemOf(Seen(ctx, t.run), ctx.world.resources[id], w, 1).Some? then
        FromCatalogue(ctx, t, quantity, candidates[1..], w, depth)
      else
        var after :- HoldAndWalk(ctx, t.run, ctx.world.resources[id], w, 1, depth);
        FromCatalogue(ctx, Tally(after, t.got + 1, t.seen), quantity, candidates[1..], w, depth)
  }

  /** Everything still waiting in the assignments. */
  function LeftOver(choices: map<string, seq<int>>): set<int> {
    set kind, id | kind in choices && id in choices[kind] :: id
  }

  /** resolve: the walk from depth 1, then the check that every assignment was asked for. */
  function Resolve(ctx: Context, run: Run, owners: seq<Owner>, w: Window): Result<Run> {
    var after :- WalkOwners(ctx, run, owners, w, 1);
    if LeftOver(after.choices) != {} then Stopped(NotAskedFor(LeftOver(after.choices))) else Done(after)
  }
}
