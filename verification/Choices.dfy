/** What becomes of the resources a caller assigned (backend/app/services/requirements.py: _kind, resolve): a walk
    takes them from the front of their kind's list, and a resolve that goes through has used each one or lists a gap
    of its kind. */
module Choices {
  import opened Sequences
  import opened Time
  import opened Tables
  import opened Availability
  import opened Requirements
  import opened Padding
  import opened Walk
  import opened Agreement

  /** The booking uses the resource, or says that something of its kind is missing. */
  ghost predicate Answered(run: Run, kind: string, id: int) {
    id in run.used || exists g :: g in run.unmet && g.requirement.target == OfKind(kind)
  }

  /** The list is shorter from the front alone, and what it lost is answered, unless the kind is excused for now. */
  ghost predicate SpentOf(run: Run, later: Run, kind: string, excused: Option<string>) {
    var was, left := Waiting(run, kind), Waiting(later, kind);
    && |left| <= |was| && left == was[|was| - |left|..]
    && (excused != Some(kind) ==> forall i :: 0 <= i < |was| - |left| ==> Answered(later, kind, was[i]))
  }

  ghost predicate Spent(run: Run, later: Run, excused: Option<string>) {
    && run.used <= later.used && run.unmet <= later.unmet
    && forall kind :: SpentOf(run, later, kind, excused)
  }

  ghost predicate AllSpent(run: Run, after: Result<Run>) {
    match after
    case Done(later) => Spent(run, later, None)
    case Stopped(why) => !why.NotAskedFor?
  }

  /** Until its gap is listed, a kind with a refused choice is excused. */
  function Excused(t: Tally, kind: string): Option<string> {
    if t.seen == [] then None else Some(kind)
  }

  lemma AnsweredStill(run: Run, later: Run, kind: string, id: int)
    requires Answered(run, kind, id) && run.used <= later.used && run.unmet <= later.unmet
    ensures Answered(later, kind, id)
  {
    assert forall g :: g in run.unmet ==> g in later.unmet;
  }

  lemma SpentThenOf(a: Run, b: Run, c: Run, kind: string, first: Option<string>, excused: Option<string>)
    requires SpentOf(a, b, kind, first) && SpentOf(b, c, kind, excused) && (first.Some? ==> first == excused)
    requires b.used <= c.used && b.unmet <= c.unmet
    ensures SpentOf(a, c, kind, excused)
  {
    var was, between, left := Waiting(a, kind), Waiting(b, kind), Waiting(c, kind);
    var gone := |was| - |between|;
    forall i | excused != Some(kind) && 0 <= i < |was| - |left| ensures Answered(c, kind, was[i]) {
      if i < gone {
        AnsweredStill(b, c, kind, was[i]);
      } else {
        assert between[i - gone] == was[i];
      }
    }
  }

  lemma SpentThen(a: Run, b: Run, c: Run, first: Option<string>, excused: Option<string>)
    requires Spent(a, b, first) && Spent(b, c, excused) && (first.Some? ==> first == excused)
    ensures Spent(a, c, excused)
  {
    forall kind ensures SpentOf(a, c, kind, excused) {
      SpentThenOf(a, b, c, kind, first, excused);
    }
  }

  lemma NothingSpent(run: Run, later: Run)
    requires later.choices == run.choices && run.used <= later.used && run.unmet <= later.unmet
    ensures Spent(run, later, None)
  {
  }

  lemma MissSpends(ctx: Context, run: Run, row: Requirement, problem: Problem, missing: int)
    ensures AllSpent(run, Miss(ctx, run, row, problem, missing))
  {
    if Miss(ctx, run, row, problem, missing).Done? {
      NothingSpent(run, Miss(ctx, run, row, problem, missing).value);
    }
  }

  // ---------------------------------------------------------------- through the walk

  lemma {:induction false} OwnersSpend(ctx: Context, run: Run, owners: seq<Owner>, w: Window, depth: int)
    requires Consistent(ctx.world) && depth <= MAX_DEPTH + 1
    ensures AllSpent(run, WalkOwners(ctx, run, owners, w, depth))
    decreases MAX_DEPTH + 1 - depth, 6, |owners|
  {
    if owners == [] {
      NothingSpent(run, run);
    } else {
      var rows := RowsOf(ctx.world, owners[0]);
      RowsSpend(ctx, run, rows, w, depth);
      var after := WalkRows(ctx, run, rows, w, depth);
      if after.Done? {
        OwnersSpend(ctx, after.value, owners[1..], w, depth);
        var last := WalkOwners(ctx, after.value, owners[1..], w, depth);
        if last.Done? {
          SpentThen(run, after.value, last.value, None, None);
        }
      }
    }
  }

  lemma {:induction false} RowsSpend(ctx: Context, run: Run, rows: seq<Requirement>, w: Window, depth: int)
    requires Consistent(ctx.world) && depth <= MAX_DEPTH + 1
    ensures AllSpent(run, WalkRows(ctx, run, rows, w, depth))
    decreases MAX_DEPTH + 1 - depth, 5, |rows|
  {
    if rows == [] {
      NothingSpent(run, run);
    } else {
      RowSpends(ctx, run, rows[0], w, depth);
      var after := WalkRow(ctx, run, rows[0], w, depth);
      if after.Done? {
        RowsSpend(ctx, after.value, rows[1..], w, depth);
        var last := WalkRows(ctx, after.value, rows[1..], w, depth);
        if last.Done? {
          SpentThen(run, after.value, last.value, None, None);
        }
      }
    }
  }

  lemma {:induction false} RowSpends(ctx: Context, run: Run, row: Requirement, w: Window, depth: int)
    requires Consistent(ctx.world) && depth <= MAX_DEPTH + 1
    ensures AllSpent(run, WalkRow(ctx, run, row, w, depth))
    decreases MAX_DEPTH + 1 - depth, 4, 0
  {
    var padded := Padded(w, row.before, row.after);
    if depth > MAX_DEPTH {
      MissSpends(ctx, run, row, Problem(TooDeep, []), 1);
    } else if padded.None? {
      MissSpends(ctx, run, row, Problem(CrossesMidnight, []), 1);
    } else {
      match row.target
      case Named(target) => NamedSpends(ctx, run, row, target, padded.value, depth);
      case OfKind(kind) => KindSpends(ctx, run, row, kind, padded.value, depth);
    }
  }

  lemma {:induction false} NamedSpends(ctx: Context, run: Run, row: Requirement, target: int, w: Window, depth: int)
    requires Consistent(ctx.world) && depth <= MAX_DEPTH
    ensures AllSpent(run, NeedNamed(ctx, run, row, target, w, depth))
    decreases MAX_DEPTH + 1 - depth, 1, 0
  {
    if target !in ctx.world.resources {
      MissSpends(ctx, run, row, Problem(Gone, []), 1);
    } else {
      var resource := ctx.world.resources[target];
      var quantity := if resource.mode.Pooled? then row.quantity else 1;
      var problem := ProblemOf(Seen(ctx, run), resource, w, quantity);
      if resource.id in run.used {
        MissSpends(ctx, run, row, Problem(AlreadyUsed, []), 1);
      } else if problem.Some? {
        MissSpends(ctx, run, row, problem.value, 1);
      } else {
        HoldSpends(ctx, run, resource, w, quantity, depth);
      }
    }
  }

  lemma {:induction false} HoldSpends(ctx: Context, run: Run, resource: Resource, w: Window, quantity: int, depth: int)
    requires Consistent(ctx.world) && depth <= MAX_DEPTH
    ensures AllSpent(run, HoldAndWalk(ctx, run, resource, w, quantity, depth))
    ensures HoldAndWalk(ctx, run, resource, w, quantity, depth).Done? ==> resource.id in HoldAndWalk(ctx, run, resource, w, quantity, depth).value.used
    decreases MAX_DEPTH + 1 - depth, 0, 0
  {
    var held := Hold(ctx, run, resource, w, quantity);
    NothingSpent(run, held);
    OwnersSpend(ctx, held, [ResourceOwner(resource.id)], w, depth + 1);
    var after := HoldAndWalk(ctx, run, resource, w, quantity, depth);
    if after.Done? {
      SpentThen(run, held, after.value, None, None);
    }
  }

  lemma {:induction false} KindSpends(ctx: Context, run: Run, row: Requirement, kind: string, w: Window, depth: int)
    requires Consistent(ctx.world) && row.target == OfKind(kind) && depth <= MAX_DEPTH
    ensures AllSpent(run, NeedKind(ctx, run, row, kind, w, depth))
    decreases MAX_DEPTH + 1 - depth, 3, 0
  {
    AssignedSpends(ctx, Tally(run, 0, []), row.quantity, kind, w, depth);
    var named := FromAssigned(ctx, Tally(run, 0, []), row.quantity, kind, w, depth);
    if named.Done? {
      FillSpends(ctx, run, named.value, row, kind, w, depth);
    }
  }

  /** A choice popped from the front and used, or refused. */
  lemma PopSpends(run: Run, popped: Run, kind: string, later: Run, excused: Option<string>)
    requires Waiting(run, kind) != [] && popped == run.(choices := run.choices[kind := Waiting(run, kind)[1..]])
    requires Spent(popped, later, excused) && (Waiting(run, kind)[0] in later.used || excused == Some(kind))
    ensures Spent(run, later, excused)
  {
    forall other ensures SpentOf(run, later, other, excused) {
      assert SpentOf(popped, later, other, excused);
      if other == kind {
        PopSpendsOf(run, popped, kind, later, excused);
      } else {
        assert Waiting(popped, other) == Waiting(run, other);
      }
    }
  }

  lemma PopSpendsOf(run: Run, popped: Run, kind: string, later: Run, excused: Option<string>)
    requires Waiting(run, kind) != [] && Waiting(popped, kind) == Waiting(run, kind)[1..]
    requires SpentOf(popped, later, kind, excused) && (Waiting(run, kind)[0] in later.used || excused == Some(kind))
    ensures SpentOf(run, later, kind, excused)
  {
    var was, left := Waiting(run, kind), Waiting(later, kind);
    EndOfTail(was, left);
    forall i | excused != Some(kind) && 0 <= i < |was| - |left| ensures Answered(later, kind, was[i]) {
      if i > 0 {
        assert was[1..][i - 1] == was[i];
      }
    }
  }

  lemma EndOfTail(was: seq<int>, left: seq<int>)
    requires was != [] && |left| < |was| && left == was[1..][|was| - 1 - |left|..]
    ensures left == was[|was| - |left|..]
  {
  }

  lemma {:induction false} AssignedSpends(ctx: Context, t: Tally, quantity: int, kind: string, w: Window, depth: int)
    requires Consistent(ctx.world) && depth <= MAX_DEPTH && (t.got + |t.seen| <= quantity || t.seen == [])
    ensures FromAssigned(ctx, t, quantity, kind, w, depth).Stopped? ==> !FromAssigned(ctx, t, quantity, kind, w, depth).why.NotAskedFor?
    ensures FromAssigned(ctx, t, quantity, kind, w, depth).Done? ==>
            var after := FromAssigned(ctx, t, quantity, kind, w, depth).value;
            && t.seen <= after.seen && (after.got + |after.seen| <= quantity || after.seen == [])
            && Spent(t.run, after.run, Excused(after, kind))
    decreases MAX_DEPTH + 1 - depth, 1, quantity - t.got - |t.seen|
  {
    if quantity <= t.got + |t.seen| || Waiting(t.run, kind) == [] {
      NothingSpent(t.run, t.run);
    } else if Waiting(t.run, kind)[0] in ctx.world.resources {
      var id := Waiting(t.run, kind)[0];
      var resource, popped := ctx.world.resources[id], t.run.(choices := t.run.choices[kind := Waiting(t.run, kind)[1..]]);
      var problem := if resource.id in popped.used then Some(Problem(AlreadyUsed, [])) else ProblemOf(Seen(ctx, popped), resource, w, 1);
      var after := FromAssigned(ctx, t, quantity, kind, w, depth);
      if problem.Some? {
        AssignedSpends(ctx, Tally(popped, t.got, t.seen + [problem.value]), quantity, kind, w, depth);
        if after.Done? {
          PopSpends(t.run, popped, kind, after.value.run, Excused(after.value, kind));
        }
      } else {
        HoldSpends(ctx, popped, resource, w, 1, depth);
        var held := HoldAndWalk(ctx, popped, resource, w, 1, depth);
        if held.Done? {
          AssignedSpends(ctx, Tally(held.value, t.got + 1, t.seen), quantity, kind, w, depth);
          if after.Done? {
            SpentThen(popped, held.value, after.value.run, None, Excused(after.value, kind));
            PopSpends(t.run, popped, kind, after.value.run, Excused(after.value, kind));
          }
        }
      }
    }
  }

  lemma {:induction false} CatalogueSpends(ctx: Context, t: Tally, quantity: int, candidates: seq<int>, w: Window, depth: int)
    requires Consistent(ctx.world) && depth <= MAX_DEPTH && (t.got + |t.seen| <= quantity || t.seen == [])
    ensures FromCatalogue(ctx, t, quantity, candidates, w, depth).Stopped? ==>
            !FromCatalogue(ctx, t, quantity, candidates, w, depth).why.NotAskedFor?
    ensures FromCatalogue(ctx, t, quantity, candidates, w, depth).Done? ==>
            var after := FromCatalogue(ctx, t, quantity, candidates, w, depth).value;
            Spent(t.run, after.run, None) && after.seen == t.seen && (after.got + |after.seen| <= quantity || after.seen == [])
    decreases MAX_DEPTH + 1 - depth, 1, |candidates|
  {
    if candidates == [] || quantity <= t.got + |t.seen| {
      NothingSpent(t.run, t.run);
    } else {
      var id := candidates[0];
      CatalogueSpends(ctx, t, quantity, candidates[1..], w, depth);
      if id in ctx.world.resources {
        HoldSpends(ctx, t.run, ctx.world.resources[id], w, 1, depth);
        var held := HoldAndWalk(ctx, t.run, ctx.world.resources[id], w, 1, depth);
        if held.Done? {
          var tally := Tally(held.value, t.got + 1, t.seen);
          CatalogueSpends(ctx, tally, quantity, candidates[1..], w, depth);
          var after := FromCatalogue(ctx, tally, quantity, candidates[1..], w, depth);
          if after.Done? {
            SpentThen(t.run, held.value, after.value.run, None, None);
          }
        }
      }
    }
  }

  /** A kind whose choice was refused ends with a gap, which answers for all of the kind. */
  lemma GapAnswers(run: Run, later: Run, last: Run, gap: Gap, kind: string)
    requires Spent(run, later, Some(kind)) && last == later.(unmet := later.unmet + [gap]) && gap.requirement.target == OfKind(kind)
    ensures Spent(run, last, None)
  {
    assert gap in last.unmet;
    forall other ensures SpentOf(run, last, other, None) {
      assert SpentOf(run, later, other, Some(kind));
      assert Waiting(last, other) == Waiting(later, other);
      GapAnswersOf(run, later, last, other, kind);
    }
  }

  lemma GapAnswersOf(run: Run, later: Run, last: Run, other: string, kind: string)
    requires SpentOf(run, later, other, Some(kind)) && Waiting(last, other) == Waiting(later, other)
    requires later.used <= last.used && later.unmet <= last.unmet && exists g :: g in last.unmet && g.requirement.target == OfKind(kind)
    ensures SpentOf(run, last, other, None)
  {
    var was, left := Waiting(run, other), Waiting(last, other);
    forall i | 0 <= i < |was| - |left| ensures Answered(last, other, was[i]) {
      if other != kind {
        AnsweredStill(later, last, other, was[i]);
      }
    }
  }

  lemma {:induction false} FillSpends(ctx: Context, run: Run, named: Tally, row: Requirement, kind: string, w: Window, depth: int)
    requires Consistent(ctx.world) && row.target == OfKind(kind) && depth <= MAX_DEPTH
    requires Spent(run, named.run, Excused(named, kind)) && (named.got + |named.seen| <= row.quantity || named.seen == [])
    ensures AllSpent(run, FillAndReport(ctx, named, row, kind, w, depth))
    decreases MAX_DEPTH + 1 - depth, 2, 0
  {
    CatalogueSpends(ctx, named, row.quantity, Candidates(ctx.world, kind), w, depth);
    NothingSpent(named.run, named.run);
    var picked := Filled(ctx, named, row.quantity, kind, w, depth);
    if picked.Done? {
      ExcusedSpends(run, named, picked.value, kind);
      ReportSpends(ctx, run, picked.value, row, kind);
    }
  }

  lemma ExcusedSpends(run: Run, named: Tally, picked: Tally, kind: string)
    requires Spent(run, named.run, Excused(named, kind)) && Spent(named.run, picked.run, None) && picked.seen == named.seen
    ensures Spent(run, picked.run, Excused(picked, kind))
  {
    forall other ensures SpentOf(named.run, picked.run, other, Excused(picked, kind)) {
      assert SpentOf(named.run, picked.run, other, None);
    }
    SpentThen(run, named.run, picked.run, Excused(named, kind), Excused(picked, kind));
  }

  lemma ReportSpends(ctx: Context, run: Run, picked: Tally, row: Requirement, kind: string)
    requires row.target == OfKind(kind) && Spent(run, picked.run, Excused(picked, kind))
    requires picked.got + |picked.seen| <= row.quantity || picked.seen == []
    ensures AllSpent(run, Reported(ctx, picked, row))
  {
    if picked.got != row.quantity {
      var problem := ShortOf(picked, row.quantity);
      var after := Miss(ctx, picked.run, row, problem, row.quantity - picked.got);
      if after.Done? {
        if picked.seen == [] {
          MissSpends(ctx, picked.run, row, problem, row.quantity - picked.got);
          SpentThen(run, picked.run, after.value, None, None);
        } else {
          GapAnswers(run, picked.run, after.value, after.value.unmet[|picked.run.unmet|], kind);
        }
      }
    }
  }

  // ---------------------------------------------------------------- the resolve

  /** Nothing a caller assigned is passed over in silence, dry or real: in a resolve that goes through, each is used
      by the booking, or something of its kind is listed as missing. One that is refused for it names only
      assignments, and at least one. */
  lemma EveryChoiceIsAnswered(ctx: Context, used: set<int>, choices: map<string, seq<int>>, owners: seq<Owner>, w: Window)
    requires Consistent(ctx.world)
    ensures var done := Resolve(ctx, Run(used, choices, [], []), owners, w);
            && (done.Done? ==> forall kind, id :: kind in choices && id in choices[kind] ==> Answered(done.value, kind, id))
            && (done.Stopped? && done.why.NotAskedFor? ==>
                  done.why.left != {} && forall id :: id in done.why.left ==> exists kind :: kind in choices && id in choices[kind])
  {
    var start := Run(used, choices, [], []);
    OwnersSpend(ctx, start, owners, w, 1);
    var walked := WalkOwners(ctx, start, owners, w, 1);
    if walked.Done? {
      forall kind, id | kind in walked.value.choices && id in walked.value.choices[kind] ensures kind in choices && id in choices[kind] {
        StillWaiting(start, walked.value, kind, id);
      }
      forall id | id in LeftOver(walked.value.choices) ensures exists kind :: kind in choices && id in choices[kind] {
        var kind :| kind in walked.value.choices && id in walked.value.choices[kind];
      }
      if LeftOver(walked.value.choices) == {} {
        forall kind, id | kind in choices && id in choices[kind] ensures Answered(walked.value, kind, id) {
          NoneLeft(walked.value, kind);
          assert SpentOf(start, walked.value, kind, None);
          var i :| 0 <= i < |choices[kind]| && choices[kind][i] == id;
          assert Waiting(start, kind)[i] == id;
        }
      }
    }
  }

  lemma StillWaiting(run: Run, later: Run, kind: string, id: int)
    requires Spent(run, later, None) && kind in later.choices && id in later.choices[kind]
    ensures kind in run.choices && id in run.choices[kind]
  {
    assert SpentOf(run, later, kind, None);
  }

  lemma InLeftOver(choices: map<string, seq<int>>, kind: string, id: int)
    requires kind in choices && id in choices[kind]
    ensures id in LeftOver(choices)
  {
  }

  lemma NoneLeft(run: Run, kind: string)
    requires LeftOver(run.choices) == {}
    ensures Waiting(run, kind) == []
  {
    if Waiting(run, kind) != [] {
      InLeftOver(run.choices, kind, run.choices[kind][0]);
    }
  }
}
