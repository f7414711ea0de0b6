/** The walk as the source runs it: one object whose used set, assignment lists, children and gaps
    are updated in place by mutually recursive methods with loops
    (backend/app/services/requirements.py: _Run and the functions that take it). Each method is
    proved to leave the object as the functions of Walk.dfy say, or to stop as they do. */
module Walker {
  import opened Sequences
  import opened Time
  import opened Tables
  import opened Availability
  import opened Requirements
  import opened Padding
  import opened Walk
  import W = Walk

  /** Whether an exception left the method, and which. */
  datatype Exit = Returned | Raised(why: Stop)

  class WalkRun {
    const ctx: Context
    var used: set<int>
    var choices: map<string, seq<int>>
    var children: seq<Reservation>
    var unmet: seq<Gap>

    function View(): Run
      reads this
    {
      Run(used, choices, children, unmet)
    }

    /** The method ended as the function says: with its run in the fields, or with its stop raised. */
    ghost predicate Did(exit: Exit, spec: Result<Run>)
      reads this
    {
      match spec
      case Done(run) => exit.Returned? && View() == run
      case Stopped(why) => exit == Raised(why)
    }

    ghost predicate DidTally(exit: Exit, spec: Result<Tally>, got: int, seen: seq<Problem>)
      reads this
    {
      match spec
      case Done(t) => exit.Returned? && t == Tally(View(), got, seen)
      case Stopped(why) => exit == Raised(why)
    }

    constructor (ctx: Context, used: set<int>, choices: map<string, seq<int>>)
      ensures this.ctx == ctx && View() == Run(used, choices, [], [])
    {
      this.ctx, this.used, this.choices, children, unmet := ctx, used, choices, [], [];
    }

    method Miss(row: Requirement, problem: Problem, missing: int) returns (exit: Exit)
      modifies this
      ensures Did(exit, W.Miss(ctx, old(View()), row, problem, missing))
    {
      var enforcement := if row.enforcement.Some? then row.enforcement.value else ctx.world.default;
      if enforcement.Required? && !ctx.dry {
        return Raised(Unsatisfied(row.id, problem.reason, problem.conflicts));
      }
      unmet := unmet + [Gap(row, missing, enforcement, problem.reason, problem.conflicts)];
      exit := Returned;
    }

    method Hold(resource: Resource, w: Window, quantity: int)
      modifies this
      ensures View() == W.Hold(ctx, old(View()), resource, w, quantity)
    {
      used := used + {resource.id};
      if !ctx.dry {
        var id := NextId(ctx.world.schedule.reservations + children);
        children := children + [Reservation(id, resource.id, w, quantity, resource.mode, true)];
      }
    }

    method WalkOwners(owners: seq<Owner>, w: Window, depth: int) returns (exit: Exit)
      requires depth <= MAX_DEPTH + 1
      modifies this
      ensures Did(exit, W.WalkOwners(ctx, old(View()), owners, w, depth))
      decreases MAX_DEPTH + 1 - depth, 5
    {
      for n := 0 to |owners|
        invariant W.WalkOwners(ctx, View(), owners[n..], w, depth) == W.WalkOwners(ctx, old(View()), owners, w, depth)
      {
        var rows := RowsOf(ctx.world, owners[n]);
        assert owners[n..][0] == owners[n] && owners[n..][1..] == owners[n + 1..];
        for m := 0 to |rows|
          invariant (match W.WalkRows(ctx, View(), rows[m..], w, depth)
                     case Done(after) => W.WalkOwners(ctx, after, owners[n + 1..], w, depth)
                     case Stopped(why) => Stopped(why))
                 == W.WalkOwners(ctx, old(View()), owners, w, depth)
        {
          assert rows[m..][0] == rows[m] && rows[m..][1..] == rows[m + 1..];
          exit := WalkRow(rows[m], w, depth);
          if exit.Raised? {
            return;
          }
        }
      }
      exit := Returned;
    }

    method WalkRow(row: Requirement, w: Window, depth: int) returns (exit: Exit)
      requires depth <= MAX_DEPTH + 1
      modifies this
      ensures Did(exit, W.WalkRow(ctx, old(View()), row, w, depth))
      decreases MAX_DEPTH + 1 - depth, 4
    {
      if depth > MAX_DEPTH {
        exit := Miss(row, Problem(TooDeep, []), 1);
        return;
      }
      var padded := Padded(w, row.before, row.after);
      if padded.None? {
        if !ctx.dry {
          return Raised(PaddingCrosses(row.id));
        }
        exit := Miss(row, Problem(CrossesMidnight, []), 1);
        return;
      }
      match row.target
      case Named(target) => exit := NeedNamed(row, target, padded.value, depth);
      case OfKind(kind) => exit := NeedKind(row, kind, padded.value, depth);
    }

    method HoldAndWalk(resource: Resource, w: Window, quantity: int, depth: int) returns (exit: Exit)
      requires depth <= MAX_DEPTH
      modifies this
      ensures Did(exit, W.HoldAndWalk(ctx, old(View()), resource, w, quantity, depth))
      decreases MAX_DEPTH + 1 - depth, 0
    {
      Hold(resource, w, quantity);
      exit := WalkOwners([ResourceOwner(resource.id)], w, depth + 1);
    }

    method NeedNamed(row: Requirement, target: int, w: Window, depth: int) returns (exit: Exit)
      requires depth <= MAX_DEPTH
      modifies this
      ensures Did(exit, W.NeedNamed(ctx, old(View()), row, target, w, depth))
      decreases MAX_DEPTH + 1 - depth, 3
    {
      if target !in ctx.world.resources {
        exit := Miss(row, Problem(Gone, []), 1);
        return;
      }
      var resource := ctx.world.resources[target];
      if resource.id in used {
        exit := Miss(row, Problem(AlreadyUsed, []), 1);
        return;
      }
      var quantity := if resource.mode.Pooled? then row.quantity else 1;
      var problem := ProblemOf(Seen(ctx, View()), resource, w, quantity);
      if problem.Some? {
        exit := Miss(row, problem.value, 1);
        return;
      }
      exit := HoldAndWalk(resource, w, quantity, depth);
    }

    method NeedKind(row: Requirement, kind: string, w: Window, depth: int) returns (exit: Exit)
      requires depth <= MAX_DEPTH
      modifies this
      ensures Did(exit, W.NeedKind(ctx, old(View()), row, kind, w, depth))
      decreases MAX_DEPTH + 1 - depth, 3
    {
      var got, seen;
      exit, got, seen := FromAssigned(row.quantity, kind, w, depth);
      if exit.Raised? {
        return;
      }
      ghost var named := Tally(View(), got, seen);
      assert W.NeedKind(ctx, old(View()), row, kind, w, depth) == W.FillAndReport(ctx, named, row, kind, w, depth);
      assert W.Filled(ctx, named, row.quantity, kind, w, depth).Done?
             || W.FillAndReport(ctx, named, row, kind, w, depth).Stopped?;
      if got + |seen| < row.quantity {
        exit, got := FromCatalogue(got, seen, row.quantity, Candidates(ctx.world, kind), w, depth);
        if exit.Raised? {
          return;
        }
      }
      if got != row.quantity {
        exit := Miss(row, ShortOf(Tally(View(), got, seen), row.quantity), row.quantity - got);
      }
    }

    /** The while loop over the caller's list. The list is the object's own, so what a nested walk
        takes from it is gone here too. */
    method FromAssigned(quantity: int, kind: string, w: Window, depth: int) returns (exit: Exit, got: int, seen: seq<Problem>)
      requires depth <= MAX_DEPTH
      modifies this
      ensures DidTally(exit, W.FromAssigned(ctx, Tally(old(View()), 0, []), quantity, kind, w, depth), got, seen)
      decreases MAX_DEPTH + 1 - depth, 1
    {
      got, seen := 0, [];
      while got + |seen| < quantity && kind in choices && choices[kind] != []
        invariant W.FromAssigned(ctx, Tally(View(), got, seen), quantity, kind, w, depth)
               == W.FromAssigned(ctx, Tally(old(View()), 0, []), quantity, kind, w, depth)
        decreases quantity - got - |seen|
      {
        var id := choices[kind][0];
        choices := choices[kind := choices[kind][1..]];
        if id !in ctx.world.resources {
          return Raised(NoSuchResource(id)), got, seen;
        }
        var resource := ctx.world.resources[id];
        var problem := if resource.id in used then Some(Problem(AlreadyUsed, []))
                       else ProblemOf(Seen(ctx, View()), resource, w, 1);
        if problem.Some? {
          seen := seen + [problem.value];
        } else {
          exit := HoldAndWalk(resource, w, 1, depth);
          if exit.Raised? {
            return;
          }
          got := got + 1;
        }
      }
      exit := Returned;
    }

    method FromCatalogue(had: int, seen: seq<Problem>, quantity: int, candidates: seq<int>, w: Window, depth: int)
      returns (exit: Exit, got: int)
      requires depth <= MAX_DEPTH
      modifies this
      ensures DidTally(exit, W.FromCatalogue(ctx, Tally(old(View()), had, seen), quantity, candidates, w, depth), got, seen)
      decreases MAX_DEPTH + 1 - depth, 1
    {
      got := had;
      for n := 0 to |candidates|
        invariant W.FromCatalogue(ctx, Tally(View(), got, seen), quantity, candidates[n..], w, depth)
               == W.FromCatalogue(ctx, Tally(old(View()), had, seen), quantity, candidates, w, depth)
      {
        if got + |seen| >= quantity {
          return Returned, got;
        }
        var id := candidates[n];
        assert candidates[n..][0] == id && candidates[n..][1..] == candidates[n + 1..];
        if id in used || id in ctx.named || id !in ctx.world.resources {
          continue;
        }
        var resource := ctx.world.resources[id];
        if ProblemOf(Seen(ctx, View()), resource, w, 1).Some? {
          continue;
        }
        exit := HoldAndWalk(resource, w, 1, depth);
        if exit.Raised? {
          return;
        }
        got := got + 1;
      }
      exit := Returned;
    }

    /** resolve: the walk, then nothing the caller named may be left over. */
    method Resolve(owners: seq<Owner>, w: Window) returns (exit: Exit)
      modifies this
      ensures Did(exit, W.Resolve(ctx, old(View()), owners, w))
    {
      exit := WalkOwners(owners, w, 1);
      if exit.Returned? {
        var left := LeftOver(choices);
        if left != {} {
          exit := Raised(NotAskedFor(left));
        }
      }
    }
  }
}
