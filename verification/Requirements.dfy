/** The requirement table (backend/app/services/requirements.py: would_cycle, add_requirement,
    delete_requirement): a resource never comes to need itself through named resources. */
module Requirements {
  import opened Sequences
  import opened Tables

  datatype Owner = ResourceOwner(id: int) | ActivityOwner(id: int)

  datatype Target = Named(resource: int) | OfKind(kind: string)

  datatype Enforcement = Required | Advisory

  datatype Requirement = Requirement(id: int, owner: Owner, target: Target, quantity: int,
                                     before: nat, after: nat, enforcement: Option<Enforcement>)

  // ---------------------------------------------------------------- reachability

  /** A saved requirement of one resource that names another. */
  predicate Edge(rows: seq<Requirement>, from: int, to: int) {
    exists r :: r in rows && r.owner == ResourceOwner(from) && r.target == Named(to)
  }

  ghost predicate Path(rows: seq<Requirement>, p: seq<int>) {
    |p| > 0 && forall i :: 0 <= i < |p| - 1 ==> Edge(rows, p[i], p[i + 1])
  }

  ghost predicate PathFromTo(rows: seq<Requirement>, p: seq<int>, from: int, to: int) {
    Path(rows, p) && p[0] == from && p[|p| - 1] == to
  }

  /** By named edges, none included. */
  ghost predicate Reaches(rows: seq<Requirement>, from: int, to: int) {
    exists p :: PathFromTo(rows, p, from, to)
  }

  /** No resource needs itself through one named requirement or more. */
  ghost predicate Acyclic(rows: seq<Requirement>) {
    forall x, y :: Edge(rows, x, y) ==> !Reaches(rows, y, x)
  }

  lemma ReachesSelf(rows: seq<Requirement>, x: int)
    ensures Reaches(rows, x, x)
  {
    assert PathFromTo(rows, [x], x, x);
  }

  lemma ReachesEdge(rows: seq<Requirement>, x: int, y: int, z: int)
    requires Edge(rows, x, y) && Reaches(rows, y, z)
    ensures Reaches(rows, x, z)
  {
    var p :| PathFromTo(rows, p, y, z);
    assert PathFromTo(rows, [x] + p, x, z);
  }

  lemma {:induction false} ReachesJoin(rows: seq<Requirement>, p: seq<int>, x: int, y: int, z: int)
    requires PathFromTo(rows, p, x, y) && Reaches(rows, y, z)
    ensures Reaches(rows, x, z)
    decreases |p|
  {
    if |p| > 1 {
      assert PathFromTo(rows, p[1..], p[1], y);
      ReachesJoin(rows, p[1..], p[1], y, z);
      ReachesEdge(rows, x, p[1], z);
    }
  }

  /** A set that holds the start and every named target of its members holds all that is reached. */
  lemma {:induction false} ClosedHolds(rows: seq<Requirement>, s: set<int>, p: seq<int>, x: int, y: int)
    requires x in s && PathFromTo(rows, p, x, y)
    requires forall a, b :: a in s && Edge(rows, a, b) ==> b in s
    ensures y in s
    decreases |p|
  {
    if |p| > 1 {
      assert PathFromTo(rows, p[1..], p[1], y);
      ClosedHolds(rows, s, p[1..], p[1], y);
    }
  }

  // ---------------------------------------------------------------- the worklist

  /** The named targets of one resource, in row order. */
  function TargetsOf(rows: seq<Requirement>, owner: int): (targets: seq<int>)
    ensures forall t :: t in targets <==> Edge(rows, owner, t)
  {
    if rows == [] then []
    else
      var front, row := rows[..|rows| - 1], rows[|rows| - 1];
      assert forall r :: r in rows <==> r in front || r == row;
      if row.owner == ResourceOwner(owner) && row.target.Named? then TargetsOf(front, owner) + [row.target.resource]
      else TargetsOf(front, owner)
  }

  /** Every resource that some row names. */
  function NamedIn(rows: seq<Requirement>): set<int> {
    set r | r in rows && r.target.Named? :: r.target.resource
  }

  /** would_cycle, a worklist search: reachability of owner from target. */
  method WouldCycle(rows: seq<Requirement>, owner: int, target: int) returns (cycle: bool)
    ensures cycle <==> Reaches(rows, target, owner)
  {
    ghost var universe := NamedIn(rows) + {target};
    var seen: set<int> := {};
    var todo := [target];
    ReachesSelf(rows, target);
    while todo != []
      invariant seen <= universe && forall x :: x in todo ==> x in universe
      invariant forall x :: x in todo ==> Reaches(rows, target, x)
      invariant forall x :: x in seen ==> Reaches(rows, target, x)
      invariant target in seen || target in todo
      invariant owner !in seen
      invariant forall a, b :: a in seen && Edge(rows, a, b) ==> b in seen || b in todo
      decreases |universe - seen|, |todo|
    {
      var here := todo[|todo| - 1];
      ghost var before := todo;
      todo := todo[..|todo| - 1];
      assert forall x :: x in before <==> x in todo || x == here;
      if here == owner {
        return true;
      }
      if here !in seen {
        assert universe - (seen + {here}) == (universe - seen) - {here};
        seen := seen + {here};
        var targets := TargetsOf(rows, here);
        forall t | t in targets ensures t in universe && Reaches(rows, target, t) {
          var r :| r in rows && r.owner == ResourceOwner(here) && r.target == Named(t);
          var p :| PathFromTo(rows, p, target, here);
          ReachesSelf(rows, t);
          ReachesEdge(rows, here, t, t);
          ReachesJoin(rows, p, target, here, t);
        }
        todo := todo + targets;
      }
    }
    cycle := false;
    if Reaches(rows, target, owner) {
      var p :| PathFromTo(rows, p, target, owner);
      ClosedHolds(rows, seen, p, target, owner);
    }
  }

  // ---------------------------------------------------------------- saving and deleting

  /** What one more edge can add: a path with it either does without it, or runs through it. */
  lemma {:induction false} ThroughNewEdge(rows: seq<Requirement>, row: Requirement, p: seq<int>, x: int, y: int)
    requires PathFromTo(rows + [row], p, x, y)
    ensures || Reaches(rows, x, y)
            || (&& row.owner.ResourceOwner? && row.target.Named?
                && Reaches(rows, x, row.owner.id) && Reaches(rows, row.target.resource, y))
    decreases |p|
  {
    if |p| == 1 {
      ReachesSelf(rows, x);
    } else {
      var next := p[1];
      assert Edge(rows + [row], x, next);
      assert PathFromTo(rows + [row], p[1..], next, y);
      ThroughNewEdge(rows, row, p[1..], next, y);
      if Edge(rows, x, next) {
        if Reaches(rows, next, y) {
          ReachesEdge(rows, x, next, y);
        } else {
          ReachesEdge(rows, x, next, row.owner.id);
        }
      } else {
        assert row.owner == ResourceOwner(x) && row.target == Named(next);
        ReachesSelf(rows, x);
      }
    }
  }

  /** Adding a row keeps the table acyclic exactly when its target does not already reach its owner. */
  lemma AcyclicAfterAdd(rows: seq<Requirement>, row: Requirement)
    requires Acyclic(rows)
    ensures Acyclic(rows + [row]) <==>
            !(row.owner.ResourceOwner? && row.target.Named? && Reaches(rows, row.target.resource, row.owner.id))
  {
    var more := rows + [row];
    assert forall x, y :: Edge(rows, x, y) ==> Edge(more, x, y);
    if row.owner.ResourceOwner? && row.target.Named? && Reaches(rows, row.target.resource, row.owner.id) {
      assert row in more;
      assert Edge(more, row.owner.id, row.target.resource);
      var p :| PathFromTo(rows, p, row.target.resource, row.owner.id);
      assert PathFromTo(more, p, row.target.resource, row.owner.id);
    } else {
      forall x, y | Edge(more, x, y) ensures !Reaches(more, y, x) {
        if Reaches(more, y, x) {
          NoLoopWithout(rows, row, x, y);
        }
      }
    }
  }

  lemma NoLoopWithout(rows: seq<Requirement>, row: Requirement, x: int, y: int)
    requires Acyclic(rows)
    requires !(row.owner.ResourceOwner? && row.target.Named? && Reaches(rows, row.target.resource, row.owner.id))
    requires Edge(rows + [row], x, y)
    ensures !Reaches(rows + [row], y, x)
  {
    if p :| PathFromTo(rows + [row], p, y, x) {
      ThroughNewEdge(rows, row, p, y, x);
      if Edge(rows, x, y) {
        // The loop ran through the new edge: target, then x, then y, then owner, all without it.
        ReachesEdge(rows, x, y, row.owner.id);
        var q :| PathFromTo(rows, q, row.target.resource, x);
        ReachesJoin(rows, q, row.target.resource, x, row.owner.id);
      }
      assert false;
    }
  }

  lemma FewerRows(rows: seq<Requirement>, fewer: seq<Requirement>)
    requires Acyclic(rows) && forall r :: r in fewer ==> r in rows
    ensures Acyclic(fewer)
  {
    assert forall x, y :: Edge(fewer, x, y) ==> Edge(rows, x, y);
    forall x, y | Edge(fewer, x, y) ensures !Reaches(fewer, y, x) {
      if p :| PathFromTo(fewer, p, y, x) {
        assert PathFromTo(rows, p, y, x);
      }
    }
  }

  // ---------------------------------------------------------------- what the table holds

  /** An owner asks for one target once. */
  ghost predicate OnceEach(rows: seq<Requirement>) {
    forall i, j :: 0 <= i < j < |rows| ==> !(rows[i].owner == rows[j].owner && rows[i].target == rows[j].target)
  }

  /** A kind in use; or a resource there is, and several units of it only where it comes in units. */
  predicate Sensible(row: Requirement, resources: map<int, Resource>, activeKinds: set<string>) {
    match row.target
    case OfKind(kind) => kind in activeKinds
    case Named(target) => target in resources && (row.quantity > 1 ==> resources[target].mode == Pooled)
  }

  ghost predicate WellKept(rows: seq<Requirement>, resources: map<int, Resource>, activeKinds: set<string>) {
    Acyclic(rows) && OnceEach(rows) && forall row :: row in rows ==> Sensible(row, resources, activeKinds)
  }

  lemma {:induction false} FilterOnceEach(rows: seq<Requirement>, p: Requirement -> bool)
    requires OnceEach(rows)
    ensures OnceEach(Filter(rows, p))
  {
    if rows != [] {
      var front, last := rows[..|rows| - 1], rows[|rows| - 1];
      FilterOnceEach(front, p);
      var kept := Filter(front, p);
      forall i | 0 <= i < |kept| ensures !(kept[i].owner == last.owner && kept[i].target == last.target) {
        assert kept[i] in kept && kept[i] in front;
      }
    }
  }

  lemma FewerWellKept(rows: seq<Requirement>, resources: map<int, Resource>, activeKinds: set<string>, p: Requirement -> bool)
    requires WellKept(rows, resources, activeKinds)
    ensures WellKept(Filter(rows, p), resources, activeKinds)
  {
    FewerRows(rows, Filter(rows, p));
    FilterOnceEach(rows, p);
  }

  lemma OnceEachAfterAdd(rows: seq<Requirement>, row: Requirement)
    requires OnceEach(rows)
    ensures OnceEach(rows + [row]) <==> !exists r :: r in rows && r.owner == row.owner && r.target == row.target
  {
    var more := rows + [row];
    if r :| r in rows && r.owner == row.owner && r.target == row.target {
      var i :| 0 <= i < |rows| && rows[i] == r;
      assert more[i] == r && more[|rows|] == row;
    } else {
      assert forall i :: 0 <= i < |rows| ==> rows[i] in rows;
    }
  }

  /** A row is saved exactly when the table with it is still a good one. */
  lemma SavedIff(rows: seq<Requirement>, resources: map<int, Resource>, activeKinds: set<string>, row: Requirement)
    requires WellKept(rows, resources, activeKinds)
    ensures AddOutcome(rows, resources, activeKinds, row) == Ok <==> WellKept(rows + [row], resources, activeKinds)
  {
    AcyclicAfterAdd(rows, row);
    OnceEachAfterAdd(rows, row);
    assert forall r :: r in rows + [row] <==> r in rows || r == row;
  }

  datatype Refusal = KindInactive | NoTarget | NotPooled | NeedsItself | Duplicate | NotFound

  datatype Saved = Ok | Refused(why: Refusal)

  /** The resource_requirements table of one organization, with what add_requirement checks it against. */
  class RequirementTable {
    var rows: seq<Requirement>
    const resources: map<int, Resource>
    const activeKinds: set<string>

    ghost predicate Valid()
      reads this
    {
      WellKept(rows, resources, activeKinds)
    }

    constructor (resources: map<int, Resource>, activeKinds: set<string>)
      ensures Valid() && rows == [] && this.resources == resources && this.activeKinds == activeKinds
    {
      this.resources, this.activeKinds, rows := resources, activeKinds, [];
    }

    /** Refused in the order the source asks; saved otherwise. The cycle refusal is exact. */
    method Add(row: Requirement) returns (saved: Saved)
      requires Valid()
      modifies this
      ensures Valid()
      ensures rows == if saved.Ok? then old(rows) + [row] else old(rows)
      ensures saved == AddOutcome(old(rows), resources, activeKinds, row)
      ensures saved.Ok? <==> WellKept(old(rows) + [row], resources, activeKinds)
    {
      SavedIff(rows, resources, activeKinds, row);
      saved := Ok;
      match row.target {
        case OfKind(kind) =>
          if kind !in activeKinds {
            return Refused(KindInactive);
          }
        case Named(target) =>
          if target !in resources {
            return Refused(NoTarget);
          }
          if row.quantity > 1 && resources[target].mode != Pooled {
            return Refused(NotPooled);
          }
          if row.owner.ResourceOwner? {
            var cycle := WouldCycle(rows, row.owner.id, target);
            if cycle {
              return Refused(NeedsItself);
            }
          }
      }
      if exists r :: r in rows && r.owner == row.owner && r.target == row.target {
        return Refused(Duplicate);
      }
      rows := rows + [row];
    }

    method Delete(owner: Owner, id: int) returns (saved: Saved)
      requires Valid()
      modifies this
      ensures Valid()
      ensures saved == if exists r :: r in old(rows) && r.id == id && r.owner == owner then Ok else Refused(NotFound)
      ensures rows == Filter(old(rows), (r: Requirement) => !(r.id == id && r.owner == owner))
    {
      var gone := (r: Requirement) => r.id == id && r.owner == owner;
      if exists r :: r in rows && gone(r) {
        var left := Filter(rows, (r: Requirement) => !(r.id == id && r.owner == owner));
        FewerWellKept(rows, resources, activeKinds, (r: Requirement) => !(r.id == id && r.owner == owner));
        rows := left;
        saved := Ok;
      } else {
        saved := Refused(NotFound);
        FilterAll(rows, (r: Requirement) => !(r.id == id && r.owner == owner));
      }
    }
  }

  /** What saving a row answers, with the cycle test as plain reachability. */
  ghost function AddOutcome(rows: seq<Requirement>, resources: map<int, Resource>, activeKinds: set<string>, row: Requirement): Saved {
    if row.target.OfKind? && row.target.kind !in activeKinds then Refused(KindInactive)
    else if row.target.Named? && row.target.resource !in resources then Refused(NoTarget)
    else if row.target.Named? && row.quantity > 1 && resources[row.target.resource].mode != Pooled then Refused(NotPooled)
    else if row.target.Named? && row.owner.ResourceOwner? && Reaches(rows, row.target.resource, row.owner.id) then Refused(NeedsItself)
    else if exists r :: r in rows && r.owner == row.owner && r.target == row.target then Refused(Duplicate)
    else Ok
  }

  datatype Change = AddRow(row: Requirement) | DeleteRow(owner: Owner, id: int)

  ghost function Applied(rows: seq<Requirement>, resources: map<int, Resource>, activeKinds: set<string>, changes: seq<Change>): seq<Requirement> {
    if changes == [] then rows
    else
      var before := Applied(rows, resources, activeKinds, changes[..|changes| - 1]);
      match changes[|changes| - 1]
      case AddRow(row) => if AddOutcome(before, resources, activeKinds, row).Ok? then before + [row] else before
      case DeleteRow(owner, id) => Filter(before, (r: Requirement) => !(r.id == id && r.owner == owner))
  }

  /** Over any sequence of saves and deletes, no resource comes to need itself, no owner asks for one target twice,
      and what is asked for is there to be asked for. */
  lemma {:induction false} NeverNeedsItself(resources: map<int, Resource>, activeKinds: set<string>, changes: seq<Change>)
    ensures WellKept(Applied([], resources, activeKinds, changes), resources, activeKinds)
  {
    if changes != [] {
      NeverNeedsItself(resources, activeKinds, changes[..|changes| - 1]);
      var before := Applied([], resources, activeKinds, changes[..|changes| - 1]);
      match changes[|changes| - 1]
      case AddRow(row) =>
        SavedIff(before, resources, activeKinds, row);
      case DeleteRow(owner, id) =>
        FewerWellKept(before, resources, activeKinds, (r: Requirement) => !(r.id == id && r.owner == owner));
    }
  }
}
