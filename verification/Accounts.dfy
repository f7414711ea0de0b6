/** What a completed booking walk owes its requirements (backend/app/services/requirements.py: _walk, _named,
    _kind, resolve): every requirement of every owner, and of everything held for one, is met or listed, for a
    reason that still stands at the end; and nothing else is held or listed. */
module Accounts {
  import opened Sequences
  import opened Time
  import opened Tables
  import opened Pool
  import opened Availability
  import opened Requirements
  import opened Padding
  import opened Walk
  import opened Agreement

  // ---------------------------------------------------------------- needs

  /** Where a requirement was met with: at one of the owners asked about, or at a child held before. */
  datatype Place = Top(i: nat) | Under(c: nat)

  datatype Need = Need(place: Place, row: Requirement)

  /** For each child the need it is held for; for each gap its need, and the caller's choices that were refused for it. */
  datatype Books = Books(held: seq<Need>, gaps: seq<Need>, refused: seq<seq<int>>)

  /** What was asked. */
  datatype Case = Case(ctx: Context, owners: seq<Owner>, w: Window)

  predicate HasPlace(k: Case, children: int, place: Place) {
    match place
    case Top(i) => i < |k.owners|
    case Under(c) => c < children
  }

  function OwnerAt(k: Case, children: seq<Reservation>, place: Place): Owner
    requires HasPlace(k, |children|, place)
  {
    match place
    case Top(i) => k.owners[i]
    case Under(c) => ResourceOwner(children[c].resource)
  }

  function WindowAt(k: Case, children: seq<Reservation>, place: Place): Window
    requires HasPlace(k, |children|, place)
  {
    match place
    case Top(_) => k.w
    case Under(c) => children[c].window
  }

  /** How many needs deep a place is. */
  function DepthAt(held: seq<Need>, place: Place): nat
    decreases match place case Top(_) => 0 case Under(c) => c + 1
  {
    match place
    case Top(_) => 1
    case Under(c) =>
      if c < |held| && (held[c].place.Under? ==> held[c].place.c < c) then 1 + DepthAt(held, held[c].place) else 1
  }

  function Wanted(row: Requirement): int {
    if row.target.Named? then 1 else row.quantity
  }

  function UnitsOf(resource: Resource, row: Requirement): int {
    if resource.mode.Pooled? then row.quantity else 1
  }

  // ---------------------------------------------------------------- what is right

  /** The resource cannot be had for this booking: the booking uses it, or it is not free for the units. */
  predicate Refused(ctx: Context, run: Run, id: int, w: Window, units: int) {
    id in ctx.world.resources && (id in run.used || ProblemOf(Seen(ctx, run), ctx.world.resources[id], w, units).Some?)
  }

  /** The active resources of a kind, in catalogue order. */
  function OnOffer(world: World, kind: string): seq<int> {
    Filter(world.catalogue, (id: int) => id in world.resources && world.resources[id].kind == kind && world.resources[id].active)
  }

  predicate PassedOver(ctx: Context, run: Run, id: int, w: Window) {
    id in ctx.named || Refused(ctx, run, id, w, 1)
  }

  /** Taken from the catalogue, with everything before it chosen by the caller or refused. */
  ghost predicate FirstOnOffer(ctx: Context, run: Run, kind: string, id: int, w: Window) {
    exists p :: 0 <= p < |OnOffer(ctx.world, kind)| && OnOffer(ctx.world, kind)[p] == id && AllPassed(ctx, run, kind, p, w)
  }

  ghost predicate AllPassed(ctx: Context, run: Run, kind: string, p: int, w: Window)
    requires p <= |OnOffer(ctx.world, kind)|
  {
    forall q :: 0 <= q < p ==> PassedOver(ctx, run, OnOffer(ctx.world, kind)[q], w)
  }

  /** The child is what the requirement asks for. */
  ghost predicate Fills(ctx: Context, run: Run, row: Requirement, child: Reservation) {
    && child.held && child.resource in ctx.world.resources
    && match row.target
       case Named(target) => child.resource == target && child.quantity == UnitsOf(ctx.world.resources[target], row)
       case OfKind(kind) =>
         && ctx.world.resources[child.resource].kind == kind && child.quantity == 1
         && (child.resource in ctx.named || FirstOnOffer(ctx, run, kind, child.resource, child.window))
  }

  /** The need is a requirement of the owner at its place. */
  ghost predicate IsNeed(k: Case, run: Run, need: Need) {
    && HasPlace(k, |run.children|, need.place) && need.row in k.ctx.world.requirements
    && need.row.owner == OwnerAt(k, run.children, need.place)
  }

  /** Each child is held for a need met with before it, over that need's padded window, and is what it asks for. */
  ghost predicate HeldRight(k: Case, run: Run, books: Books, i: int)
    requires 0 <= i < |books.held| == |run.children|
  {
    var need, child := books.held[i], run.children[i];
    && IsNeed(k, run, need) && HasPlace(k, i, need.place) && DepthAt(books.held, need.place) <= 4
    && Padded(WindowAt(k, run.children, need.place), need.row.before, need.row.after) == Some(child.window)
    && Fills(k.ctx, run, need.row, child)
  }

  /** A kind that came up short: refused choices of the caller's make up for all of it, or the catalogue is used up. */
  ghost predicate RightlyShort(ctx: Context, run: Run, kind: string, w: Window, missing: int, refused: seq<int>) {
    && |refused| <= missing && (forall id :: id in refused ==> id in ctx.named && Refused(ctx, run, id, w, 1))
    && (|refused| < missing ==> AllPassed(ctx, run, kind, |OnOffer(ctx.world, kind)|, w))
  }

  /** The reason a gap gives stands. */
  ghost predicate Genuine(k: Case, run: Run, books: Books, need: Need, reason: Reason, missing: int, refused: seq<int>)
    requires IsNeed(k, run, need)
  {
    if 4 < DepthAt(books.held, need.place) then reason.TooDeep? && missing == 1
    else
      var world, padded := k.ctx.world, Padded(WindowAt(k, run.children, need.place), need.row.before, need.row.after);
      && !reason.TooDeep? && padded.Some?
      && match need.row.target
         case Named(target) =>
           && (reason.Gone? <==> target !in world.resources)
           && (target in world.resources ==> Refused(k.ctx, run, target, padded.value, UnitsOf(world.resources[target], need.row)))
         case OfKind(kind) => RightlyShort(k.ctx, run, kind, padded.value, missing, refused)
  }

  /** Each gap is of a need, with the enforcement of its row, and its reason stands. */
  ghost predicate GapRight(k: Case, run: Run, books: Books, j: int)
    requires 0 <= j < |books.gaps| == |run.unmet| == |books.refused|
  {
    var need, gap := books.gaps[j], run.unmet[j];
    && IsNeed(k, run, need) && gap.requirement == need.row
    && gap.enforcement == (if need.row.enforcement.Some? then need.row.enforcement.value else k.ctx.world.default)
    && gap.enforcement.Advisory?
    && Genuine(k, run, books, need, gap.reason, gap.missing, books.refused[j])
  }

  /** The need is met, with no gap, or has one gap that says how much is missing. A chain too deep is not counted. */
  ghost predicate Settled(run: Run, books: Books, need: Need)
    requires |books.gaps| == |run.unmet|
  {
    var got := multiset(books.held)[need];
    && got <= Wanted(need.row) && multiset(books.gaps)[need] == (if got == Wanted(need.row) then 0 else 1)
    && forall j :: 0 <= j < |books.gaps| && books.gaps[j] == need && !run.unmet[j].reason.TooDeep? ==> run.unmet[j].missing == Wanted(need.row) - got
  }

  ghost predicate ChildSettled(k: Case, run: Run, books: Books, c: nat)
    requires c < |run.children| && |books.gaps| == |run.unmet|
  {
    forall row :: row in k.ctx.world.requirements && row.owner == ResourceOwner(run.children[c].resource) ==> Settled(run, books, Need(Under(c), row))
  }

  // ---------------------------------------------------------------- the walk so far

  ghost predicate Matching(run: Run, books: Books) {
    |books.held| == |run.children| && |books.gaps| == |run.unmet| == |books.refused|
  }

  ghost predicate Kept(k: Case, run: Run, books: Books) {
    && Matching(run, books)
    && (forall i :: 0 <= i < |books.held| ==> HeldRight(k, run, books, i))
    && (forall j :: 0 <= j < |books.gaps| ==> GapRight(k, run, books, j))
    && (forall h :: h in run.children ==> h.held && h.quantity >= 1 && Proper(h.window))
    && Offered(k.ctx, run.choices)
  }

  /** The caller's choices are resources it named, each under its own kind. */
  ghost predicate Offered(ctx: Context, choices: map<string, seq<int>>) {
    forall kind, id :: kind in choices && id in choices[kind] ==> id in ctx.named && (id in ctx.world.resources ==> ctx.world.resources[id].kind == kind)
  }

  /** What a real walk starts from. */
  ghost predicate Real(k: Case) {
    !k.ctx.dry && Consistent(k.ctx.world) && Proper(k.w) && Quantities(k.ctx.world.schedule.reservations) && Distinct(k.ctx.world.requirements)
  }

  ghost predicate Grown(run: Run, later: Run) {
    run.used <= later.used && run.children <= later.children && run.unmet <= later.unmet
  }

  predicate Fresh(need: Need, place: Place, rows: seq<Requirement>, from: int) {
    (need.place == place && need.row in rows) || (need.place.Under? && from <= need.place.c)
  }

  /** Only needs of the place, and of children held since, have been written up since. */
  ghost predicate Wrote(run: Run, books: Books, later: Run, after: Books, place: Place, rows: seq<Requirement>) {
    && Grown(run, later) && Matching(run, books) && Matching(later, after)
    && books.held <= after.held && books.gaps <= after.gaps && books.refused <= after.refused
    && (forall i :: |books.held| <= i < |after.held| ==> Fresh(after.held[i], place, rows, |run.children|))
    && (forall j :: |books.gaps| <= j < |after.gaps| ==> Fresh(after.gaps[j], place, rows, |run.children|))
  }

  ghost predicate NewSettled(k: Case, run: Run, books: Books, from: int)
    requires Matching(run, books)
  {
    forall c: nat :: from <= c < |run.children| ==> ChildSettled(k, run, books, c)
  }

  ghost predicate At(k: Case, run: Run, books: Books, place: Place, w: Window, depth: int) {
    && Kept(k, run, books) && HasPlace(k, |run.children|, place)
    && w == WindowAt(k, run.children, place) && depth == DepthAt(books.held, place)
  }

  ghost predicate Unstarted(books: Books, need: Need) {
    need !in books.held && need !in books.gaps
  }

  // ---------------------------------------------------------------- what stays

  lemma HoldStays(db: Schedule, more: seq<Reservation>, resource: int, e: Entry, holds: bool)
    requires Occupies(db, resource, holds, e)
    ensures Occupies(Plus(db, more), resource, holds, e)
  {
    assert forall slot, day :: Replaced(Plus(db, more), resource, slot, day) <==> Replaced(db, resource, slot, day);
    assert forall h :: h in db.reservations ==> h in Plus(db, more).reservations;
  }

  lemma ConflictsStay(db: Schedule, more: seq<Reservation>, resource: int, w: Window, holds: bool)
    requires WindowConflicts(db, resource, w, holds) != []
    ensures WindowConflicts(Plus(db, more), resource, w, holds) != []
  {
    var e := WindowConflicts(db, resource, w, holds)[0];
    assert e in WindowConflicts(db, resource, w, holds);
    WindowConflictsExact(db, resource, w, holds, e);
    HoldStays(db, more, resource, e, holds);
    WindowConflictsExact(Plus(db, more), resource, w, holds, e);
  }

  lemma {:induction false} MoreCovers(a: seq<Reservation>, b: seq<Reservation>, t: int)
    requires Quantities(b)
    ensures Covering(LoadsOf(a), t) <= Covering(LoadsOf(a + b), t)
  {
    if b == [] {
      assert a + b == a;
    } else {
      var front, last := b[..|b| - 1], b[|b| - 1];
      assert last in b && a + b == (a + front) + [last];
      MoreCovers(a, front, t);
      CoveringOneMore(a + front, last, t);
    }
  }

  lemma TakenStays(db: Schedule, more: seq<Reservation>, resource: int, w: Window)
    requires Quantities(db.reservations) && Quantities(more) && Proper(w)
    ensures PoolTaken(db, resource, w) <= PoolTaken(Plus(db, more), resource, w)
  {
    var t := PoolTakenExact(db, resource, w);
    var later := PoolTakenExact(Plus(db, more), resource, w);
    var p := (h: Reservation) => HeldOn(h, resource);
    FilterConcat(db.reservations, more, p);
    assert forall h :: h in Filter(more, p) ==> h in more;
    MoreCovers(AllHolds(db, resource), Filter(more, p), t);
  }

  /** What is not free does not become free by holding more. */
  lemma ProblemStays(db: Schedule, more: seq<Reservation>, resource: Resource, w: Window, units: int)
    requires Quantities(db.reservations) && Quantities(more) && Proper(w) && ProblemOf(db, resource, w, units).Some?
    ensures ProblemOf(Plus(db, more), resource, w, units).Some?
  {
    if resource.active {
      match resource.mode
      case Shared =>
      case Exclusive => ConflictsStay(db, more, resource.id, w, true);
      case Pooled =>
        if WindowConflicts(db, resource.id, w, false) != [] {
          ConflictsStay(db, more, resource.id, w, false);
        } else {
          TakenStays(db, more, resource.id, w);
        }
    }
  }

  ghost predicate Sane(run: Run) {
    forall h :: h in run.children ==> h.held && h.quantity >= 1 && Proper(h.window)
  }

  lemma RefusedStays(k: Case, run: Run, later: Run, id: int, w: Window, units: int)
    requires Real(k) && Grown(run, later) && Sane(later) && Proper(w) && Refused(k.ctx, run, id, w, units)
    ensures Refused(k.ctx, later, id, w, units)
  {
    if id !in later.used {
      SeenGrows(k.ctx, run, later);
      ProblemStays(Seen(k.ctx, run), later.children[|run.children|..], k.ctx.world.resources[id], w, units);
    }
  }

  lemma SeenGrows(ctx: Context, run: Run, later: Run)
    requires run.children <= later.children && Sane(later) && Quantities(ctx.world.schedule.reservations)
    ensures Seen(ctx, later) == Plus(Seen(ctx, run), later.children[|run.children|..])
    ensures Quantities(Seen(ctx, run).reservations) && Quantities(later.children[|run.children|..])
  {
    var rest := later.children[|run.children|..];
    assert later.children == run.children + rest;
    assert (ctx.world.schedule.reservations + run.children) + rest == ctx.world.schedule.reservations + later.children;
    assert forall h :: h in rest || h in run.children ==> h in later.children;
  }

  lemma AllPassedStays(k: Case, run: Run, later: Run, kind: string, p: int, w: Window)
    requires Real(k) && Grown(run, later) && Sane(later) && Proper(w) && p <= |OnOffer(k.ctx.world, kind)| && AllPassed(k.ctx, run, kind, p, w)
    ensures AllPassed(k.ctx, later, kind, p, w)
  {
    var offer := OnOffer(k.ctx.world, kind);
    forall q | 0 <= q < p ensures PassedOver(k.ctx, later, offer[q], w) {
      assert PassedOver(k.ctx, run, offer[q], w);
      if offer[q] !in k.ctx.named {
        RefusedStays(k, run, later, offer[q], w, 1);
      }
    }
  }

  lemma FillsStays(k: Case, run: Run, later: Run, row: Requirement, child: Reservation)
    requires Real(k) && Grown(run, later) && Sane(later) && Proper(child.window) && Fills(k.ctx, run, row, child)
    ensures Fills(k.ctx, later, row, child)
  {
    if row.target.OfKind? && child.resource !in k.ctx.named {
      var p :| 0 <= p < |OnOffer(k.ctx.world, row.target.kind)| && OnOffer(k.ctx.world, row.target.kind)[p] == child.resource
               && AllPassed(k.ctx, run, row.target.kind, p, child.window);
      AllPassedStays(k, run, later, row.target.kind, p, child.window);
    }
  }

  lemma {:induction false} DepthStays(k: Case, run: Run, books: Books, after: Books, place: Place)
    requires Matching(run, books) && books.held <= after.held && HasPlace(k, |run.children|, place)
    requires forall i :: 0 <= i < |books.held| ==> HasPlace(k, i, books.held[i].place)
    ensures DepthAt(after.held, place) == DepthAt(books.held, place)
    decreases match place case Top(_) => 0 case Under(c) => c + 1
  {
    if place.Under? {
      assert HasPlace(k, place.c, books.held[place.c].place);
      DepthStays(k, run, books, after, books.held[place.c].place);
    }
  }

  lemma PlaceStays(k: Case, run: Run, books: Books, later: Run, after: Books, place: Place)
    requires Kept(k, run, books) && Grown(run, later) && books.held <= after.held && HasPlace(k, |run.children|, place)
    ensures HasPlace(k, |later.children|, place) && DepthAt(after.held, place) == DepthAt(books.held, place)
    ensures OwnerAt(k, later.children, place) == OwnerAt(k, run.children, place) && WindowAt(k, later.children, place) == WindowAt(k, run.children, place)
  {
    forall i | 0 <= i < |books.held| ensures HasPlace(k, i, books.held[i].place) {
      assert HeldRight(k, run, books, i);
    }
    DepthStays(k, run, books, after, place);
  }

  lemma HeldStays(k: Case, run: Run, books: Books, later: Run, after: Books, i: int)
    requires Real(k) && Kept(k, run, books) && Grown(run, later) && Sane(later) && Matching(later, after) && books.held <= after.held
    requires 0 <= i < |books.held|
    ensures HeldRight(k, later, after, i)
  {
    assert HeldRight(k, run, books, i);
    PlaceStays(k, run, books, later, after, books.held[i].place);
    assert run.children[i] in run.children;
    FillsStays(k, run, later, books.held[i].row, run.children[i]);
  }

  lemma WindowIsProper(k: Case, run: Run, place: Place)
    requires Proper(k.w) && Sane(run) && HasPlace(k, |run.children|, place)
    ensures Proper(WindowAt(k, run.children, place))
  {
    if place.Under? {
      assert run.children[place.c] in run.children;
    }
  }

  lemma ShortStays(k: Case, run: Run, later: Run, kind: string, w: Window, missing: int, refused: seq<int>)
    requires Real(k) && Grown(run, later) && Sane(later) && Proper(w) && RightlyShort(k.ctx, run, kind, w, missing, refused)
    ensures RightlyShort(k.ctx, later, kind, w, missing, refused)
  {
    forall id | id in refused ensures Refused(k.ctx, later, id, w, 1) {
      RefusedStays(k, run, later, id, w, 1);
    }
    if |refused| < missing {
      AllPassedStays(k, run, later, kind, |OnOffer(k.ctx.world, kind)|, w);
    }
  }

  lemma GapStays(k: Case, run: Run, books: Books, later: Run, after: Books, j: int)
    requires Real(k) && Kept(k, run, books) && Grown(run, later) && Sane(later) && Matching(later, after)
    requires books.held <= after.held && books.gaps <= after.gaps && books.refused <= after.refused && 0 <= j < |books.gaps|
    ensures GapRight(k, later, after, j)
  {
    assert GapRight(k, run, books, j);
    var need := books.gaps[j];
    PlaceStays(k, run, books, later, after, need.place);
    if DepthAt(books.held, need.place) <= 4 {
      var w := WindowAt(k, run.children, need.place);
      WindowIsProper(k, run, need.place);
      PaddedProper(w, need.row.before, need.row.after);
      var padded := Padded(w, need.row.before, need.row.after).value;
      match need.row.target
      case Named(target) =>
        if target in k.ctx.world.resources {
          RefusedStays(k, run, later, target, padded, UnitsOf(k.ctx.world.resources[target], need.row));
        }
      case OfKind(kind) => ShortStays(k, run, later, kind, padded, run.unmet[j].missing, books.refused[j]);
    }
  }

  /** All that was right stays right as the walk goes on. */
  lemma AllStays(k: Case, run: Run, books: Books, later: Run, after: Books)
    requires Real(k) && Kept(k, run, books) && Grown(run, later) && Sane(later) && Matching(later, after)
    requires books.held <= after.held && books.gaps <= after.gaps && books.refused <= after.refused
    ensures forall i :: 0 <= i < |books.held| ==> HeldRight(k, later, after, i)
    ensures forall j :: 0 <= j < |books.gaps| ==> GapRight(k, later, after, j)
  {
    forall i | 0 <= i < |books.held| ensures HeldRight(k, later, after, i) {
      HeldStays(k, run, books, later, after, i);
    }
    forall j | 0 <= j < |books.gaps| ensures GapRight(k, later, after, j) {
      GapStays(k, run, books, later, after, j);
    }
  }

  lemma CountStays<T>(a: seq<T>, b: seq<T>, x: T)
    requires a <= b && forall i :: |a| <= i < |b| ==> b[i] != x
    ensures multiset(b)[x] == multiset(a)[x]
  {
    assert b == a + b[|a|..];
    assert x !in b[|a|..];
  }

  lemma SettledStays(run: Run, books: Books, later: Run, after: Books, place: Place, rows: seq<Requirement>, need: Need)
    requires Wrote(run, books, later, after, place, rows) && !Fresh(need, place, rows, |run.children|) && Settled(run, books, need)
    ensures Settled(later, after, need)
  {
    CountStays(books.held, after.held, need);
    CountStays(books.gaps, after.gaps, need);
  }

  // ---------------------------------------------------------------- one gap, one hold

  lemma AddGap(k: Case, run: Run, books: Books, need: Need, problem: Problem, missing: int, refused: seq<int>) returns (later: Run, after: Books)
    requires Real(k) && Kept(k, run, books) && IsNeed(k, run, need) && Genuine(k, run, books, need, problem.reason, missing, refused)
    requires Miss(k.ctx, run, need.row, problem, missing).Done?
    ensures later == Miss(k.ctx, run, need.row, problem, missing).value && Kept(k, later, after)
    ensures after == Books(books.held, books.gaps + [need], books.refused + [refused])
    ensures Wrote(run, books, later, after, need.place, [need.row])
    ensures later.children == run.children && later.unmet[|run.unmet|].missing == missing && later.unmet[|run.unmet|].reason == problem.reason
  {
    later := Miss(k.ctx, run, need.row, problem, missing).value;
    after := Books(books.held, books.gaps + [need], books.refused + [refused]);
    AllStays(k, run, books, later, after);
    assert Seen(k.ctx, later) == Seen(k.ctx, run);
    assert GapRight(k, later, after, |books.gaps|);
  }

  lemma AddChild(k: Case, run: Run, books: Books, need: Need, resource: Resource, w: Window, units: int) returns (later: Run, after: Books)
    requires Real(k) && Kept(k, run, books) && IsNeed(k, run, need) && DepthAt(books.held, need.place) <= 4
    requires Padded(WindowAt(k, run.children, need.place), need.row.before, need.row.after) == Some(w)
    requires resource.id in k.ctx.world.resources && units >= 1
    requires Fills(k.ctx, run, need.row, Child(k.ctx, run, resource, w, units))
    ensures later == Hold(k.ctx, run, resource, w, units) && after == books.(held := books.held + [need])
    ensures Kept(k, later, after) && Wrote(run, books, later, after, need.place, [need.row])
    ensures |later.children| == |run.children| + 1 && later.children[|run.children|].resource == resource.id
    ensures At(k, later, after, Under(|run.children|), w, DepthAt(books.held, need.place) + 1)
  {
    later := Hold(k.ctx, run, resource, w, units);
    after := books.(held := books.held + [need]);
    var c, child := |run.children|, Child(k.ctx, run, resource, w, units);
    WindowIsProper(k, run, need.place);
    PaddedProper(WindowAt(k, run.children, need.place), need.row.before, need.row.after);
    assert later.children == run.children + [child];
    AllStays(k, run, books, later, after);
    PlaceStays(k, run, books, later, after, need.place);
    FillsStays(k, run, later, need.row, child);
    assert HeldRight(k, later, after, c);
  }

  lemma WroteThen(run: Run, books: Books, run1: Run, books1: Books, run2: Run, books2: Books, place: Place, rows: seq<Requirement>, more: seq<Requirement>)
    requires Wrote(run, books, run1, books1, place, rows) && Wrote(run1, books1, run2, books2, place, more)
    ensures Wrote(run, books, run2, books2, place, rows + more)
  {
    forall i | |books.held| <= i < |books2.held| ensures Fresh(books2.held[i], place, rows + more, |run.children|) {
      assert i < |books1.held| ==> books2.held[i] == books1.held[i];
    }
    forall j | |books.gaps| <= j < |books2.gaps| ensures Fresh(books2.gaps[j], place, rows + more, |run.children|) {
      assert j < |books1.gaps| ==> books2.gaps[j] == books1.gaps[j];
    }
  }

  /** Under a child held since, all that was written is of the place too. */
  lemma WroteUnder(run: Run, books: Books, run1: Run, books1: Books, run2: Run, books2: Books, place: Place, row: Requirement, rows: seq<Requirement>)
    requires Wrote(run, books, run1, books1, place, [row]) && Wrote(run1, books1, run2, books2, Under(|run.children|), rows)
    ensures Wrote(run, books, run2, books2, place, [row])
  {
    forall i | |books.held| <= i < |books2.held| ensures Fresh(books2.held[i], place, [row], |run.children|) {
      assert i < |books1.held| ==> books2.held[i] == books1.held[i];
    }
    forall j | |books.gaps| <= j < |books2.gaps| ensures Fresh(books2.gaps[j], place, [row], |run.children|) {
      assert j < |books1.gaps| ==> books2.gaps[j] == books1.gaps[j];
    }
  }

  /** Children settled earlier stay so while another place is worked on. */
  lemma NewStays(k: Case, run: Run, books: Books, run1: Run, books1: Books, run2: Run, books2: Books, place: Place, rows: seq<Requirement>)
    requires Grown(run, run1) && Wrote(run1, books1, run2, books2, place, rows) && (place.Under? ==> place.c < |run.children|)
    requires NewSettled(k, run1, books1, |run.children|) && NewSettled(k, run2, books2, |run1.children|)
    ensures NewSettled(k, run2, books2, |run.children|)
  {
    forall c: nat | |run.children| <= c < |run1.children| ensures ChildSettled(k, run2, books2, c) {
      forall row | row in k.ctx.world.requirements && row.owner == ResourceOwner(run2.children[c].resource)
        ensures Settled(run2, books2, Need(Under(c), row))
      {
        assert run2.children[c] == run1.children[c] && ChildSettled(k, run1, books1, c);
        SettledStays(run1, books1, run2, books2, place, rows, Need(Under(c), row));
      }
    }
  }

  lemma OneOwner(ctx: Context, run: Run, owner: Owner, w: Window, depth: int)
    requires depth <= MAX_DEPTH + 1
    ensures WalkOwners(ctx, run, [owner], w, depth) == WalkRows(ctx, run, RowsOf(ctx.world, owner), w, depth)
  {
    assert [owner][1..] == [];
    var rows := WalkRows(ctx, run, RowsOf(ctx.world, owner), w, depth);
    if rows.Done? {
      assert WalkOwners(ctx, rows.value, [], w, depth) == rows;
    }
  }

  /** Nothing has been written of a child yet to be held. */
  lemma NothingUnder(k: Case, run: Run, books: Books, need: Need)
    requires Kept(k, run, books) && need.place == Under(|run.children|)
    ensures Unstarted(books, need)
  {
    forall i | 0 <= i < |books.held| ensures books.held[i] != need {
      assert HeldRight(k, run, books, i);
    }
    forall j | 0 <= j < |books.gaps| ensures books.gaps[j] != need {
      assert GapRight(k, run, books, j);
    }
  }

  // ---------------------------------------------------------------- the walk

  ghost predicate Progress(k: Case, run: Run, books: Books, later: Run, after: Books, place: Place, rows: seq<Requirement>) {
    Kept(k, later, after) && Wrote(run, books, later, after, place, rows) && NewSettled(k, later, after, |run.children|)
  }

  lemma AtStays(k: Case, run: Run, books: Books, later: Run, after: Books, place: Place, w: Window, depth: int)
    requires At(k, run, books, place, w, depth) && Kept(k, later, after) && Grown(run, later) && books.held <= after.held
    ensures At(k, later, after, place, w, depth) && OwnerAt(k, later.children, place) == OwnerAt(k, run.children, place)
  {
    PlaceStays(k, run, books, later, after, place);
  }

  lemma UnstartedStays(run: Run, books: Books, later: Run, after: Books, place: Place, rows: seq<Requirement>, need: Need)
    requires Wrote(run, books, later, after, place, rows) && !Fresh(need, place, rows, |run.children|) && Unstarted(books, need)
    ensures Unstarted(after, need)
  {
  }

  lemma {:induction false} AccountRows(k: Case, run: Run, books: Books, place: Place, rows: seq<Requirement>, w: Window, depth: int) returns (later: Run, after: Books)
    requires Real(k) && At(k, run, books, place, w, depth) && depth <= MAX_DEPTH + 1 && Distinct(rows)
    requires forall row :: row in rows ==> IsNeed(k, run, Need(place, row)) && Unstarted(books, Need(place, row))
    requires WalkRows(k.ctx, run, rows, w, depth).Done?
    ensures later == WalkRows(k.ctx, run, rows, w, depth).value && Progress(k, run, books, later, after, place, rows)
    ensures forall row :: row in rows ==> Settled(later, after, Need(place, row))
    decreases MAX_DEPTH + 1 - depth, 5, |rows|
  {
    if rows == [] {
      later, after := run, books;
    } else {
      var first, rest := rows[0], rows[1..];
      HeadAndTail(rows);
      var run1, books1 := AccountRow(k, run, books, place, first, w, depth);
      RestIsReady(k, run, books, run1, books1, place, first, rest, w, depth);
      later, after := AccountRows(k, run1, books1, place, rest, w, depth);
      JoinRows(k, run, books, run1, books1, later, after, place, first, rest);
    }
  }

  lemma HeadAndTail(rows: seq<Requirement>)
    requires rows != [] && Distinct(rows)
    ensures rows == [rows[0]] + rows[1..] && rows[0] !in rows[1..] && Distinct(rows[1..])
    ensures forall row :: row in rows <==> row == rows[0] || row in rows[1..]
  {
  }

  lemma RestIsReady(k: Case, run: Run, books: Books, run1: Run, books1: Books, place: Place, first: Requirement, rest: seq<Requirement>, w: Window, depth: int)
    requires At(k, run, books, place, w, depth) && Progress(k, run, books, run1, books1, place, [first]) && first !in rest
    requires forall row :: row in rest ==> IsNeed(k, run, Need(place, row)) && Unstarted(books, Need(place, row))
    ensures At(k, run1, books1, place, w, depth)
    ensures forall row :: row in rest ==> IsNeed(k, run1, Need(place, row)) && Unstarted(books1, Need(place, row))
  {
    AtStays(k, run, books, run1, books1, place, w, depth);
    forall row | row in rest ensures Unstarted(books1, Need(place, row)) {
      UnstartedStays(run, books, run1, books1, place, [first], Need(place, row));
    }
  }

  lemma JoinRows(k: Case, run: Run, books: Books, run1: Run, books1: Books, later: Run, after: Books, place: Place, first: Requirement, rest: seq<Requirement>)
    requires Progress(k, run, books, run1, books1, place, [first]) && Progress(k, run1, books1, later, after, place, rest)
    requires HasPlace(k, |run.children|, place) && first !in rest && Settled(run1, books1, Need(place, first))
    ensures Progress(k, run, books, later, after, place, [first] + rest) && Settled(later, after, Need(place, first))
  {
    WroteThen(run, books, run1, books1, later, after, place, [first], rest);
    NewStays(k, run, books, run1, books1, later, after, place, rest);
    SettledStays(run1, books1, later, after, place, rest, Need(place, first));
  }

  lemma NoneWritten(books: Books, need: Need)
    requires Unstarted(books, need)
    ensures multiset(books.held)[need] == 0 && multiset(books.gaps)[need] == 0
  {
  }

  /** A need with a gap and nothing more to come. */
  lemma GapSettles(k: Case, run: Run, books: Books, need: Need, problem: Problem, missing: int, refused: seq<int>) returns (later: Run, after: Books)
    requires Real(k) && Kept(k, run, books) && IsNeed(k, run, need) && Genuine(k, run, books, need, problem.reason, missing, refused)
    requires Miss(k.ctx, run, need.row, problem, missing).Done?
    requires multiset(books.gaps)[need] == 0 && multiset(books.held)[need] < Wanted(need.row)
    requires problem.reason.TooDeep? || missing == Wanted(need.row) - multiset(books.held)[need]
    ensures later == Miss(k.ctx, run, need.row, problem, missing).value
    ensures Progress(k, run, books, later, after, need.place, [need.row]) && Settled(later, after, need)
  {
    later, after := AddGap(k, run, books, need, problem, missing, refused);
    forall j | 0 <= j < |books.gaps| ensures books.gaps[j] != need {
      assert books.gaps[j] in multiset(books.gaps);
    }
  }

  lemma {:induction false} AccountRow(k: Case, run: Run, books: Books, place: Place, row: Requirement, w: Window, depth: int) returns (later: Run, after: Books)
    requires Real(k) && At(k, run, books, place, w, depth) && depth <= MAX_DEPTH + 1
    requires IsNeed(k, run, Need(place, row)) && Unstarted(books, Need(place, row)) && WalkRow(k.ctx, run, row, w, depth).Done?
    ensures later == WalkRow(k.ctx, run, row, w, depth).value
    ensures Progress(k, run, books, later, after, place, [row]) && Settled(later, after, Need(place, row))
    decreases MAX_DEPTH + 1 - depth, 4, 0
  {
    NoneWritten(books, Need(place, row));
    if depth > MAX_DEPTH {
      later, after := GapSettles(k, run, books, Need(place, row), Problem(TooDeep, []), 1, []);
    } else {
      var padded := Padded(w, row.before, row.after).value;
      match row.target
      case Named(target) => later, after := AccountNamed(k, run, books, Need(place, row), target, padded, depth);
      case OfKind(kind) => later, after := AccountKind(k, run, books, Need(place, row), kind, padded, depth);
    }
  }

  /** A need at a depth that is walked, over its padded window. */
  ghost predicate Open(k: Case, run: Run, books: Books, need: Need, w: Window, depth: int) {
    && Kept(k, run, books) && IsNeed(k, run, need) && depth == DepthAt(books.held, need.place) <= MAX_DEPTH
    && Padded(WindowAt(k, run.children, need.place), need.row.before, need.row.after) == Some(w)
  }

  lemma OpenStays(k: Case, run: Run, books: Books, later: Run, after: Books, need: Need, w: Window, depth: int)
    requires Open(k, run, books, need, w, depth) && Kept(k, later, after) && Grown(run, later) && books.held <= after.held
    ensures Open(k, later, after, need, w, depth)
  {
    PlaceStays(k, run, books, later, after, need.place);
  }

  lemma OpenIsProper(k: Case, run: Run, books: Books, need: Need, w: Window, depth: int)
    requires Proper(k.w) && Open(k, run, books, need, w, depth)
    ensures Proper(w)
  {
    WindowIsProper(k, run, need.place);
    PaddedProper(WindowAt(k, run.children, need.place), need.row.before, need.row.after);
  }

  lemma {:induction false} AccountNamed(k: Case, run: Run, books: Books, need: Need, target: int, w: Window, depth: int) returns (later: Run, after: Books)
    requires Real(k) && Open(k, run, books, need, w, depth) && need.row.target == Named(target)
    requires multiset(books.held)[need] == 0 && multiset(books.gaps)[need] == 0
    requires NeedNamed(k.ctx, run, need.row, target, w, depth).Done?
    ensures later == NeedNamed(k.ctx, run, need.row, target, w, depth).value
    ensures Progress(k, run, books, later, after, need.place, [need.row]) && Settled(later, after, need)
    decreases MAX_DEPTH + 1 - depth, 1, 0
  {
    if target !in k.ctx.world.resources {
      later, after := GapSettles(k, run, books, need, Problem(Gone, []), 1, []);
    } else {
      var resource := k.ctx.world.resources[target];
      var units := UnitsOf(resource, need.row);
      var problem := ProblemOf(Seen(k.ctx, run), resource, w, units);
      if target in run.used {
        later, after := GapSettles(k, run, books, need, Problem(AlreadyUsed, []), 1, []);
      } else if problem.Some? {
        ReasonOfProblem(Seen(k.ctx, run), resource, w, units);
        later, after := GapSettles(k, run, books, need, problem.value, 1, []);
      } else {
        later, after := AccountHold(k, run, books, need, resource, w, units, depth);
      }
    }
  }

  lemma ReasonOfProblem(db: Schedule, resource: Resource, w: Window, units: int)
    ensures ProblemOf(db, resource, w, units).Some? ==>
              !ProblemOf(db, resource, w, units).value.reason.TooDeep? && !ProblemOf(db, resource, w, units).value.reason.Gone?
  {
  }

  lemma {:induction false} AccountHold(k: Case, run: Run, books: Books, need: Need, resource: Resource, w: Window, units: int, depth: int) returns (later: Run, after: Books)
    requires Real(k) && Open(k, run, books, need, w, depth) && units >= 1
    requires resource.id in k.ctx.world.resources && Fills(k.ctx, run, need.row, Child(k.ctx, run, resource, w, units))
    requires HoldAndWalk(k.ctx, run, resource, w, units, depth).Done?
    ensures later == HoldAndWalk(k.ctx, run, resource, w, units, depth).value
    ensures Progress(k, run, books, later, after, need.place, [need.row]) && resource.id in later.used
    ensures multiset(after.held)[need] == multiset(books.held)[need] + 1 && multiset(after.gaps)[need] == multiset(books.gaps)[need]
    ensures multiset(books.held)[need] + 1 == Wanted(need.row) && multiset(books.gaps)[need] == 0 ==> Settled(later, after, need)
    decreases MAX_DEPTH + 1 - depth, 0, 0
  {
    var run1, books1 := AddChild(k, run, books, need, resource, w, units);
    forall row ensures Unstarted(books1, Need(Under(|run.children|), row)) {
      NothingUnder(k, run, books, Need(Under(|run.children|), row));
    }
    later, after := AccountUnder(k, run1, books1, |run.children|, w, depth + 1);
    JoinHold(k, run, books, run1, books1, later, after, need, RowsOf(k.ctx.world, ResourceOwner(resource.id)));
  }

  /** All that a child just held needs in turn. */
  lemma {:induction false} AccountUnder(k: Case, run: Run, books: Books, c: nat, w: Window, depth: int) returns (later: Run, after: Books)
    requires Real(k) && At(k, run, books, Under(c), w, depth) && depth <= MAX_DEPTH + 1 && |run.children| == c + 1
    requires forall row :: Unstarted(books, Need(Under(c), row))
    requires WalkOwners(k.ctx, run, [ResourceOwner(run.children[c].resource)], w, depth).Done?
    ensures later == WalkOwners(k.ctx, run, [ResourceOwner(run.children[c].resource)], w, depth).value
    ensures Progress(k, run, books, later, after, Under(c), RowsOf(k.ctx.world, ResourceOwner(run.children[c].resource)))
    ensures ChildSettled(k, later, after, c)
    decreases MAX_DEPTH + 1 - depth, 6, 0
  {
    var owner := ResourceOwner(run.children[c].resource);
    OneOwner(k.ctx, run, owner, w, depth);
    FilterDistinct(k.ctx.world.requirements, (r: Requirement) => r.owner == owner);
    later, after := AccountRows(k, run, books, Under(c), RowsOf(k.ctx.world, owner), w, depth);
  }

  lemma JoinHold(k: Case, run: Run, books: Books, run1: Run, books1: Books, later: Run, after: Books, need: Need, rows: seq<Requirement>)
    requires HasPlace(k, |run.children|, need.place) && |run1.children| == |run.children| + 1 && books1 == books.(held := books.held + [need])
    requires Wrote(run, books, run1, books1, need.place, [need.row]) && Progress(k, run1, books1, later, after, Under(|run.children|), rows)
    requires ChildSettled(k, later, after, |run.children|)
    ensures Progress(k, run, books, later, after, need.place, [need.row])
    ensures multiset(after.held)[need] == multiset(books.held)[need] + 1 && multiset(after.gaps)[need] == multiset(books.gaps)[need]
    ensures multiset(books.held)[need] + 1 == Wanted(need.row) && multiset(books.gaps)[need] == 0 ==> Settled(later, after, need)
  {
    WroteUnder(run, books, run1, books1, later, after, need.place, need.row, rows);
    CountStays(books1.held, after.held, need);
    CountStays(books1.gaps, after.gaps, need);
    NoGapOf(after.gaps, need);
  }

  lemma NoGapOf(gaps: seq<Need>, need: Need)
    ensures multiset(gaps)[need] == 0 ==> forall j :: 0 <= j < |gaps| ==> gaps[j] != need
  {
    assert forall j :: 0 <= j < |gaps| ==> gaps[j] in multiset(gaps);
  }

  // ---------------------------------------------------------------- kinds

  /** How far a need of a kind has come: what is held for it, and the caller's choices refused for it. */
  ghost predicate Tallied(k: Case, t: Tally, books: Books, need: Need, w: Window, refused: seq<int>) {
    && multiset(books.held)[need] == t.got && multiset(books.gaps)[need] == 0 && t.got + |t.seen| <= need.row.quantity
    && |refused| == |t.seen| && forall id :: id in refused ==> id in k.ctx.named && Refused(k.ctx, t.run, id, w, 1)
  }

  lemma RefusedAllStay(k: Case, run: Run, later: Run, w: Window, refused: seq<int>)
    requires Real(k) && Grown(run, later) && Sane(later) && Proper(w) && forall id :: id in refused ==> id in k.ctx.named && Refused(k.ctx, run, id, w, 1)
    ensures forall id :: id in refused ==> id in k.ctx.named && Refused(k.ctx, later, id, w, 1)
  {
    forall id | id in refused ensures Refused(k.ctx, later, id, w, 1) {
      RefusedStays(k, run, later, id, w, 1);
    }
  }

  lemma ProgressThen(k: Case, run: Run, books: Books, run1: Run, books1: Books, later: Run, after: Books, place: Place, row: Requirement)
    requires Progress(k, run, books, run1, books1, place, [row]) && Progress(k, run1, books1, later, after, place, [row]) && HasPlace(k, |run.children|, place)
    ensures Progress(k, run, books, later, after, place, [row])
  {
    WroteThen(run, books, run1, books1, later, after, place, [row], [row]);
    NewStays(k, run, books, run1, books1, later, after, place, [row]);
    assert forall r :: r in [row] + [row] <==> r in [row];
  }

  /** Taking a choice off its list changes nothing that is written up. */
  lemma PopKeeps(k: Case, run: Run, books: Books, kind: string, place: Place, row: Requirement) returns (popped: Run)
    requires Real(k) && Kept(k, run, books) && Waiting(run, kind) != []
    ensures popped == run.(choices := run.choices[kind := Waiting(run, kind)[1..]])
    ensures Kept(k, popped, books) && Progress(k, run, books, popped, books, place, [row])
  {
    popped := run.(choices := run.choices[kind := Waiting(run, kind)[1..]]);
    AllStays(k, run, books, popped, books);
    forall other, id | other in popped.choices && id in popped.choices[other] ensures id in run.choices[other] {
    }
  }

  lemma {:induction false} AccountAssigned(k: Case, t: Tally, books: Books, refused: seq<int>, need: Need, kind: string, w: Window, depth: int)
    returns (later: Tally, after: Books, turned: seq<int>)
    requires Real(k) && Open(k, t.run, books, need, w, depth) && need.row.target == OfKind(kind) && Tallied(k, t, books, need, w, refused)
    requires FromAssigned(k.ctx, t, need.row.quantity, kind, w, depth).Done?
    ensures later == FromAssigned(k.ctx, t, need.row.quantity, kind, w, depth).value
    ensures Progress(k, t.run, books, later.run, after, need.place, [need.row]) && Tallied(k, later, after, need, w, turned)
    decreases MAX_DEPTH + 1 - depth, 1, need.row.quantity - t.got - |t.seen|
  {
    if need.row.quantity <= t.got + |t.seen| || Waiting(t.run, kind) == [] {
      later, after, turned := t, books, refused;
    } else {
      OpenIsProper(k, t.run, books, need, w, depth);
      var id := Waiting(t.run, kind)[0];
      var resource := k.ctx.world.resources[id];
      assert id in t.run.choices[kind];
      var popped := PopKeeps(k, t.run, books, kind, need.place, need.row);
      OpenStays(k, t.run, books, popped, books, need, w, depth);
      RefusedAllStay(k, t.run, popped, w, refused);
      var problem := if resource.id in popped.used then Some(Problem(AlreadyUsed, [])) else ProblemOf(Seen(k.ctx, popped), resource, w, 1);
      if problem.Some? {
        later, after, turned := AccountAssigned(k, Tally(popped, t.got, t.seen + [problem.value]), books, refused + [id], need, kind, w, depth);
        ProgressThen(k, t.run, books, popped, books, later.run, after, need.place, need.row);
      } else {
        var run1, books1 := AccountHold(k, popped, books, need, resource, w, 1, depth);
        RefusedAllStay(k, popped, run1, w, refused);
        OpenStays(k, popped, books, run1, books1, need, w, depth);
        later, after, turned := AccountAssigned(k, Tally(run1, t.got + 1, t.seen), books1, refused, need, kind, w, depth);
        ProgressThen(k, t.run, books, popped, books, run1, books1, need.place, need.row);
        ProgressThen(k, t.run, books, run1, books1, later.run, after, need.place, need.row);
      }
    }
  }

  lemma SameOffer(world: World, kind: string)
    ensures Candidates(world, kind) == OnOffer(world, kind)
  {
    FilterSame(world.catalogue, (id: int) => id in world.resources && world.resources[id].kind == kind && world.resources[id].active,
               (id: int) => id in world.resources && world.resources[id].kind == kind && world.resources[id].active);
  }

  lemma {:induction false} AccountCatalogue(k: Case, t: Tally, books: Books, refused: seq<int>, need: Need, kind: string, p: nat, w: Window, depth: int)
    returns (later: Tally, after: Books)
    requires Real(k) && Open(k, t.run, books, need, w, depth) && need.row.target == OfKind(kind) && Tallied(k, t, books, need, w, refused)
    requires p <= |OnOffer(k.ctx.world, kind)| && AllPassed(k.ctx, t.run, kind, p, w)
    requires FromCatalogue(k.ctx, t, need.row.quantity, OnOffer(k.ctx.world, kind)[p..], w, depth).Done?
    ensures later == FromCatalogue(k.ctx, t, need.row.quantity, OnOffer(k.ctx.world, kind)[p..], w, depth).value
    ensures Progress(k, t.run, books, later.run, after, need.place, [need.row]) && Tallied(k, later, after, need, w, refused)
    ensures later.got + |later.seen| < need.row.quantity ==> AllPassed(k.ctx, later.run, kind, |OnOffer(k.ctx.world, kind)|, w)
    decreases MAX_DEPTH + 1 - depth, 1, |OnOffer(k.ctx.world, kind)| - p, 0
  {
    var offer := OnOffer(k.ctx.world, kind);
    if p == |offer| || need.row.quantity <= t.got + |t.seen| {
      later, after := t, books;
    } else {
      var id := offer[p];
      assert offer[p..][0] == id && offer[p..][1..] == offer[p + 1..] && id in offer;
      if id in t.run.used || id in k.ctx.named || ProblemOf(Seen(k.ctx, t.run), k.ctx.world.resources[id], w, 1).Some? {
        later, after := AccountCatalogue(k, t, books, refused, need, kind, p + 1, w, depth);
      } else {
        later, after := AccountPick(k, t, books, refused, need, kind, p, w, depth);
      }
    }
  }

  lemma {:induction false} AccountPick(k: Case, t: Tally, books: Books, refused: seq<int>, need: Need, kind: string, p: nat, w: Window, depth: int)
    returns (later: Tally, after: Books)
    requires Real(k) && Open(k, t.run, books, need, w, depth) && need.row.target == OfKind(kind) && Tallied(k, t, books, need, w, refused)
    requires p < |OnOffer(k.ctx.world, kind)| && AllPassed(k.ctx, t.run, kind, p, w) && t.got + |t.seen| < need.row.quantity
    requires var id := OnOffer(k.ctx.world, kind)[p];
      && id in k.ctx.world.resources && id !in t.run.used && ProblemOf(Seen(k.ctx, t.run), k.ctx.world.resources[id], w, 1).None?
      && HoldAndWalk(k.ctx, t.run, k.ctx.world.resources[id], w, 1, depth).Done?
      && FromCatalogue(k.ctx, Tally(HoldAndWalk(k.ctx, t.run, k.ctx.world.resources[id], w, 1, depth).value, t.got + 1, t.seen),
                       need.row.quantity, OnOffer(k.ctx.world, kind)[p + 1..], w, depth).Done?
    ensures var held := HoldAndWalk(k.ctx, t.run, k.ctx.world.resources[OnOffer(k.ctx.world, kind)[p]], w, 1, depth).value;
            later == FromCatalogue(k.ctx, Tally(held, t.got + 1, t.seen), need.row.quantity, OnOffer(k.ctx.world, kind)[p + 1..], w, depth).value
    ensures Progress(k, t.run, books, later.run, after, need.place, [need.row]) && Tallied(k, later, after, need, w, refused)
    ensures later.got + |later.seen| < need.row.quantity ==> AllPassed(k.ctx, later.run, kind, |OnOffer(k.ctx.world, kind)|, w)
    decreases MAX_DEPTH + 1 - depth, 1, |OnOffer(k.ctx.world, kind)| - p - 1, 1
  {
    var id := OnOffer(k.ctx.world, kind)[p];
    assert id in OnOffer(k.ctx.world, kind);
    assert FirstOnOffer(k.ctx, t.run, kind, id, w);
    var run1, books1 := AccountHold(k, t.run, books, need, k.ctx.world.resources[id], w, 1, depth);
    PickedOne(k, t, books, run1, books1, refused, need, kind, p, w, depth);
    later, after := AccountCatalogue(k, Tally(run1, t.got + 1, t.seen), books1, refused, need, kind, p + 1, w, depth);
    ProgressThen(k, t.run, books, run1, books1, later.run, after, need.place, need.row);
  }

  lemma PickedOne(k: Case, t: Tally, books: Books, run1: Run, books1: Books, refused: seq<int>, need: Need, kind: string, p: nat, w: Window, depth: int)
    requires Real(k) && Open(k, t.run, books, need, w, depth) && need.row.target == OfKind(kind) && Tallied(k, t, books, need, w, refused)
    requires p < |OnOffer(k.ctx.world, kind)| && AllPassed(k.ctx, t.run, kind, p, w) && t.got + |t.seen| < need.row.quantity
    requires Progress(k, t.run, books, run1, books1, need.place, [need.row]) && OnOffer(k.ctx.world, kind)[p] in run1.used
    requires OnOffer(k.ctx.world, kind)[p] in k.ctx.world.resources
    requires multiset(books1.held)[need] == multiset(books.held)[need] + 1 && multiset(books1.gaps)[need] == multiset(books.gaps)[need]
    ensures Open(k, run1, books1, need, w, depth) && Tallied(k, Tally(run1, t.got + 1, t.seen), books1, need, w, refused)
    ensures AllPassed(k.ctx, run1, kind, p + 1, w)
  {
    OpenIsProper(k, t.run, books, need, w, depth);
    RefusedAllStay(k, t.run, run1, w, refused);
    AllPassedStays(k, t.run, run1, kind, p, w);
    OpenStays(k, t.run, books, run1, books1, need, w, depth);
  }

  lemma {:induction false} AccountKind(k: Case, run: Run, books: Books, need: Need, kind: string, w: Window, depth: int) returns (later: Run, after: Books)
    requires Real(k) && Open(k, run, books, need, w, depth) && need.row.target == OfKind(kind)
    requires multiset(books.held)[need] == 0 && multiset(books.gaps)[need] == 0
    requires NeedKind(k.ctx, run, need.row, kind, w, depth).Done?
    ensures later == NeedKind(k.ctx, run, need.row, kind, w, depth).value
    ensures Progress(k, run, books, later, after, need.place, [need.row]) && Settled(later, after, need)
    decreases MAX_DEPTH + 1 - depth, 3, 0
  {
    var t, books1, refused := AccountAssigned(k, Tally(run, 0, []), books, [], need, kind, w, depth);
    OpenStays(k, run, books, t.run, books1, need, w, depth);
    later, after := AccountFill(k, t, books1, refused, need, kind, w, depth);
    ProgressThen(k, run, books, t.run, books1, later, after, need.place, need.row);
  }

  lemma {:induction false} AccountFill(k: Case, t: Tally, books: Books, refused: seq<int>, need: Need, kind: string, w: Window, depth: int) returns (later: Run, after: Books)
    requires Real(k) && Open(k, t.run, books, need, w, depth) && need.row.target == OfKind(kind) && Tallied(k, t, books, need, w, refused)
    requires FillAndReport(k.ctx, t, need.row, kind, w, depth).Done?
    ensures later == FillAndReport(k.ctx, t, need.row, kind, w, depth).value
    ensures Progress(k, t.run, books, later, after, need.place, [need.row]) && Settled(later, after, need)
    decreases MAX_DEPTH + 1 - depth, 2, 0
  {
    var picked, books1 := AccountFilled(k, t, books, refused, need, kind, w, depth);
    OpenStays(k, t.run, books, picked.run, books1, need, w, depth);
    later, after := AccountReported(k, picked, books1, refused, need, kind, w, depth);
    ProgressThen(k, t.run, books, picked.run, books1, later, after, need.place, need.row);
  }

  lemma {:induction false} AccountFilled(k: Case, t: Tally, books: Books, refused: seq<int>, need: Need, kind: string, w: Window, depth: int) returns (later: Tally, after: Books)
    requires Real(k) && Open(k, t.run, books, need, w, depth) && need.row.target == OfKind(kind) && Tallied(k, t, books, need, w, refused)
    requires Filled(k.ctx, t, need.row.quantity, kind, w, depth).Done?
    ensures later == Filled(k.ctx, t, need.row.quantity, kind, w, depth).value
    ensures Progress(k, t.run, books, later.run, after, need.place, [need.row]) && Tallied(k, later, after, need, w, refused)
    ensures later.got + |later.seen| < need.row.quantity ==> AllPassed(k.ctx, later.run, kind, |OnOffer(k.ctx.world, kind)|, w)
    decreases MAX_DEPTH + 1 - depth, 1, |OnOffer(k.ctx.world, kind)| + 1
  {
    if t.got + |t.seen| < need.row.quantity {
      SameOffer(k.ctx.world, kind);
      assert OnOffer(k.ctx.world, kind)[0..] == OnOffer(k.ctx.world, kind);
      later, after := AccountCatalogue(k, t, books, refused, need, kind, 0, w, depth);
    } else {
      later, after := t, books;
    }
  }

  lemma ShortIsGenuine(k: Case, t: Tally, books: Books, refused: seq<int>, need: Need, kind: string, w: Window, depth: int)
    requires Open(k, t.run, books, need, w, depth) && need.row.target == OfKind(kind) && Tallied(k, t, books, need, w, refused)
    requires t.got + |t.seen| < need.row.quantity ==> AllPassed(k.ctx, t.run, kind, |OnOffer(k.ctx.world, kind)|, w)
    ensures Genuine(k, t.run, books, need, ShortOf(t, need.row.quantity).reason, need.row.quantity - t.got, refused)
  {
  }

  lemma AccountReported(k: Case, t: Tally, books: Books, refused: seq<int>, need: Need, kind: string, w: Window, depth: int) returns (later: Run, after: Books)
    requires Real(k) && Open(k, t.run, books, need, w, depth) && need.row.target == OfKind(kind) && Tallied(k, t, books, need, w, refused)
    requires t.got + |t.seen| < need.row.quantity ==> AllPassed(k.ctx, t.run, kind, |OnOffer(k.ctx.world, kind)|, w)
    requires Reported(k.ctx, t, need.row).Done?
    ensures later == Reported(k.ctx, t, need.row).value
    ensures Progress(k, t.run, books, later, after, need.place, [need.row]) && Settled(later, after, need)
  {
    if t.got == need.row.quantity {
      later, after := t.run, books;
      NoGapOf(books.gaps, need);
    } else {
      ShortIsGenuine(k, t, books, refused, need, kind, w, depth);
      later, after := GapSettles(k, t.run, books, need, ShortOf(t, need.row.quantity), need.row.quantity - t.got, refused);
    }
  }

  // ---------------------------------------------------------------- the owners asked about

  predicate Newer(need: Need, from: nat, children: int) {
    match need.place
    case Top(i) => from <= i
    case Under(c) => children <= c
  }

  ghost predicate WroteFrom(run: Run, books: Books, later: Run, after: Books, from: nat) {
    && Grown(run, later) && Matching(run, books) && Matching(later, after)
    && books.held <= after.held && books.gaps <= after.gaps && books.refused <= after.refused
    && (forall i :: |books.held| <= i < |after.held| ==> Newer(after.held[i], from, |run.children|))
    && (forall j :: |books.gaps| <= j < |after.gaps| ==> Newer(after.gaps[j], from, |run.children|))
  }

  lemma OlderStays(run: Run, books: Books, later: Run, after: Books, from: nat, need: Need)
    requires WroteFrom(run, books, later, after, from) && !Newer(need, from, |run.children|) && Settled(run, books, need)
    ensures Settled(later, after, need)
  {
    CountStays(books.held, after.held, need);
    CountStays(books.gaps, after.gaps, need);
  }

  ghost predicate OwnerSettled(k: Case, run: Run, books: Books, i: nat)
    requires i < |k.owners| && Matching(run, books)
  {
    forall row :: row in k.ctx.world.requirements && row.owner == k.owners[i] ==> Settled(run, books, Need(Top(i), row))
  }

  lemma {:induction false} AccountOwners(k: Case, run: Run, books: Books, from: nat) returns (later: Run, after: Books)
    requires Real(k) && Kept(k, run, books) && from <= |k.owners| && WalkOwners(k.ctx, run, k.owners[from..], k.w, 1).Done?
    requires forall need :: need in books.held || need in books.gaps ==> need.place.Under? || need.place.i < from
    ensures later == WalkOwners(k.ctx, run, k.owners[from..], k.w, 1).value && Kept(k, later, after)
    ensures WroteFrom(run, books, later, after, from) && NewSettled(k, later, after, |run.children|)
    ensures forall i: nat :: from <= i < |k.owners| ==> OwnerSettled(k, later, after, i)
    decreases |k.owners| - from
  {
    if from == |k.owners| {
      later, after := run, books;
    } else {
      assert k.owners[from..][0] == k.owners[from] && k.owners[from..][1..] == k.owners[from + 1..];
      var rows := RowsOf(k.ctx.world, k.owners[from]);
      FilterDistinct(k.ctx.world.requirements, (r: Requirement) => r.owner == k.owners[from]);
      var run1, books1 := AccountRows(k, run, books, Top(from), rows, k.w, 1);
      PlacesUpTo(run, books, run1, books1, from, rows);
      later, after := AccountOwners(k, run1, books1, from + 1);
      JoinOwners(k, run, books, run1, books1, later, after, from, rows);
    }
  }

  lemma PlacesUpTo(run: Run, books: Books, run1: Run, books1: Books, from: nat, rows: seq<Requirement>)
    requires Wrote(run, books, run1, books1, Top(from), rows)
    requires forall need :: need in books.held || need in books.gaps ==> need.place.Under? || need.place.i < from
    ensures forall need :: need in books1.held || need in books1.gaps ==> need.place.Under? || need.place.i < from + 1
  {
    forall need | need in books1.held ensures need.place.Under? || need.place.i < from + 1 {
      var i :| 0 <= i < |books1.held| && books1.held[i] == need;
      assert i < |books.held| ==> books.held[i] in books.held;
    }
    forall need | need in books1.gaps ensures need.place.Under? || need.place.i < from + 1 {
      var j :| 0 <= j < |books1.gaps| && books1.gaps[j] == need;
      assert j < |books.gaps| ==> books.gaps[j] in books.gaps;
    }
  }

  lemma JoinOwners(k: Case, run: Run, books: Books, run1: Run, books1: Books, later: Run, after: Books, from: nat, rows: seq<Requirement>)
    requires from < |k.owners| && Progress(k, run, books, run1, books1, Top(from), rows)
    requires forall row :: row in k.ctx.world.requirements && row.owner == k.owners[from] ==> Settled(run1, books1, Need(Top(from), row))
    requires WroteFrom(run1, books1, later, after, from + 1) && NewSettled(k, later, after, |run1.children|)
    requires forall i: nat :: from + 1 <= i < |k.owners| ==> OwnerSettled(k, later, after, i)
    ensures WroteFrom(run, books, later, after, from) && NewSettled(k, later, after, |run.children|)
    ensures forall i: nat :: from <= i < |k.owners| ==> OwnerSettled(k, later, after, i)
  {
    forall i | |books.held| <= i < |after.held| ensures Newer(after.held[i], from, |run.children|) {
      assert i < |books1.held| ==> after.held[i] == books1.held[i];
    }
    forall j | |books.gaps| <= j < |after.gaps| ensures Newer(after.gaps[j], from, |run.children|) {
      assert j < |books1.gaps| ==> after.gaps[j] == books1.gaps[j];
    }
    forall c: nat | |run.children| <= c < |run1.children| ensures ChildSettled(k, later, after, c) {
      forall row | row in k.ctx.world.requirements && row.owner == ResourceOwner(later.children[c].resource)
        ensures Settled(later, after, Need(Under(c), row))
      {
        assert later.children[c] == run1.children[c] && ChildSettled(k, run1, books1, c);
        OlderStays(run1, books1, later, after, from + 1, Need(Under(c), row));
      }
    }
    forall row | row in k.ctx.world.requirements && row.owner == k.owners[from] ensures Settled(later, after, Need(Top(from), row)) {
      OlderStays(run1, books1, later, after, from + 1, Need(Top(from), row));
    }
  }

  /** The books are right and complete. Every requirement of an owner asked about, over the window, and of every child
      held, over the child's own window, is met by as many children as it wants, or has one gap that says how many are
      missing. Every child is held for one such requirement, over its padded window, and is the resource named or one
      of the kind, the caller's or the first on offer. Every gap is of such a requirement, and what it says stands at
      the end. No two children are of one resource. */
  ghost predicate AccountedFor(k: Case, run: Run, books: Books) {
    && |books.held| == |run.children| && |books.gaps| == |run.unmet| == |books.refused|
    && (forall i: nat, row :: i < |k.owners| && row in k.ctx.world.requirements && row.owner == k.owners[i] ==> Settled(run, books, Need(Top(i), row)))
    && (forall c: nat, row :: c < |run.children| && row in k.ctx.world.requirements && row.owner == ResourceOwner(run.children[c].resource) ==>
          Settled(run, books, Need(Under(c), row)))
    && (forall i :: 0 <= i < |run.children| ==> HeldRight(k, run, books, i))
    && (forall j :: 0 <= j < |run.unmet| ==> GapRight(k, run, books, j))
    && (forall i, j :: 0 <= i < j < |run.children| ==> run.children[i].resource != run.children[j].resource)
  }

  /** Every completed real resolve can be accounted for. */
  lemma EveryNeedIsAccountedFor(ctx: Context, used: set<int>, choices: map<string, seq<int>>, owners: seq<Owner>, w: Window) returns (books: Books)
    requires !ctx.dry && Consistent(ctx.world) && Proper(w) && Offered(ctx, choices)
    requires Quantities(ctx.world.schedule.reservations) && Distinct(ctx.world.requirements)
    requires Resolve(ctx, Run(used, choices, [], []), owners, w).Done?
    ensures AccountedFor(Case(ctx, owners, w), Resolve(ctx, Run(used, choices, [], []), owners, w).value, books)
  {
    var k, start := Case(ctx, owners, w), Run(used, choices, [], []);
    assert owners[0..] == owners;
    var later;
    later, books := AccountOwners(k, start, Books([], [], []), 0);
    DistinctChildren(ctx, used, choices, owners, w);
    forall i: nat, row | i < |owners| && row in ctx.world.requirements && row.owner == owners[i] ensures Settled(later, books, Need(Top(i), row)) {
      assert OwnerSettled(k, later, books, i);
    }
    forall c: nat, row | c < |later.children| && row in ctx.world.requirements && row.owner == ResourceOwner(later.children[c].resource)
      ensures Settled(later, books, Need(Under(c), row))
    {
      assert ChildSettled(k, later, books, c);
    }
  }

  lemma DistinctChildren(ctx: Context, used: set<int>, choices: map<string, seq<int>>, owners: seq<Owner>, w: Window)
    requires !ctx.dry && Consistent(ctx.world) && Proper(w) && Resolve(ctx, Run(used, choices, [], []), owners, w).Done?
    ensures var run := Resolve(ctx, Run(used, choices, [], []), owners, w).value;
            forall i, j :: 0 <= i < j < |run.children| ==> run.children[i].resource != run.children[j].resource
  {
    var dry := ctx.(dry := true);
    assert Plus(ctx.world.schedule, []) == ctx.world.schedule;
    assert RealOf(dry, []) == ctx;
    DryAndRealAgree(dry, [], used, choices, owners, w);
  }
}
