/** The ledger jobs as they run, over a table they change in place
    (backend/app/cron/ledger_generator.py: _insert_day, generate_daily_ledger_entries,
    _without_overlaps, materialize_horizon). Each is proved to leave the table that Ledger.dfy says. */
module LedgerJob {
  import opened Sequences
  import opened Time
  import opened Recurrence
  import opened Tables
  import opened Availability
  import opened RuleChecks
  import opened Ledger

  const LEDGER_BATCH_SIZE: int := 500

  predicate ClaimsWindow(row: LedgerDay) {
    row.resource.Some? && row.hours.Some?
  }

  // ---------------------------------------------------------------- the held dict

  function SpansOn(held: map<int, seq<Span>>, room: int): seq<Span> {
    if room in held then held[room] else []
  }

  predicate Reached(row: LedgerDay, room: int, first: int, last: int) {
    ClaimsRoom(row, room) && first - 1 <= row.date <= last + 1
  }

  /** held lists, for every room involved, the spans of the days that reach the window. */
  ghost predicate Tracks(held: map<int, seq<Span>>, rooms: set<int>, days: seq<LedgerDay>, first: int, last: int) {
    forall room, span :: room in rooms ==>
      (span in SpansOn(held, room) <==> exists row :: row in days && Reached(row, room, first, last) && span == WindowSpan(DayWindow(row)))
  }

  lemma TracksOneMore(held: map<int, seq<Span>>, held': map<int, seq<Span>>, rooms: set<int>, days: seq<LedgerDay>, row: LedgerDay, first: int, last: int)
    requires Tracks(held, rooms, days, first, last)
    requires if ClaimsWindow(row) && row.resource.value in rooms && first - 1 <= row.date <= last + 1
             then held' == held[row.resource.value := SpansOn(held, row.resource.value) + [WindowSpan(DayWindow(row))]]
             else held' == held
    ensures Tracks(held', rooms, days + [row], first, last)
  {
    var more := days + [row];
    assert forall x :: x in more <==> x in days || x == row;
    forall room, span | room in rooms
      ensures span in SpansOn(held', room) <==> exists x :: x in more && Reached(x, room, first, last) && span == WindowSpan(DayWindow(x))
    {
      assert span in SpansOn(held, room) <==> exists x :: x in days && Reached(x, room, first, last) && span == WindowSpan(DayWindow(x));
    }
  }

  // ---------------------------------------------------------------- the missing list

  lemma NotAmongEarlier(slots: seq<Slot>, n: nat)
    requires InIdOrder(slots) && n < |slots|
    ensures slots[n] !in slots[..n]
  {
  }

  /** Sorting the missing slot-dates, however they were gathered, gives the day-by-day order. */
  lemma SortedIsDayMajor(slots: seq<Slot>, days: seq<LedgerDay>, first: int, last: int, missing: seq<Due>)
    requires InIdOrder(slots) && Distinct(missing)
    requires forall due :: due in missing <==> due in DuesOver(slots, days, first, last)
    ensures SortBy(missing, DueLe) == DuesOver(slots, days, first, last)
  {
    var sorted, dues := SortBy(missing, DueLe), DuesOver(slots, days, first, last);
    SortByKeeps(missing, DueLe);
    PermutationDistinct(sorted, missing);
    forall i, j | 0 <= i < j < |sorted| ensures DueLt(sorted[i], sorted[j]) {
      assert sorted[i] in sorted && sorted[j] in sorted;
      InDuesOver(slots, days, first, last, sorted[i]);
      InDuesOver(slots, days, first, last, sorted[j]);
    }
    DuesOverInOrder(slots, days, first, last);
    StrictOrderUnique(sorted, dues, DueLt);
  }

  // ---------------------------------------------------------------- leave, read once

  datatype Absence = Absence(first: int, last: int)

  function AbsencesOf(leave: map<int, seq<Absence>>, lead: int): seq<Absence> {
    if lead in leave then leave[lead] else []
  }

  ghost predicate AwayBy(leave: map<int, seq<Absence>>, lead: int, day: int) {
    exists a :: a in AbsencesOf(leave, lead) && a.first <= day <= a.last
  }

  predicate LeaveFetched(l: Leave, leads: set<int>, first: int, last: int) {
    l.lead in leads && l.first <= last && first <= LeaveEnd(l) && l.approved
  }

  /** The approved leave of the leads involved, read once for the window. */
  method LeaveIn(leaves: seq<Leave>, leads: set<int>, first: int, last: int) returns (leave: map<int, seq<Absence>>)
    ensures forall lead, day :: lead in leads && first <= day <= last ==> (AwayBy(leave, lead, day) <==> Away(leaves, Some(lead), day))
  {
    leave := map[];
    for n := 0 to |leaves|
      invariant forall lead, day :: lead in leads && first <= day <= last ==>
                  (AwayBy(leave, lead, day) <==> Away(leaves[..n], Some(lead), day))
    {
      var l := leaves[n];
      ghost var before := leave;
      if LeaveFetched(l, leads, first, last) {
        leave := leave[l.lead := AbsencesOf(leave, l.lead) + [Absence(l.first, LeaveEnd(l))]];
      }
      forall lead, day | lead in leads && first <= day <= last
        ensures AwayBy(leave, lead, day) <==> Away(leaves[..n + 1], Some(lead), day)
      {
        AwayOneMore(leaves, n, lead, day);
        AwayByOneMore(before, leave, l, leads, first, last, lead, day);
      }
    }
    assert leaves[..|leaves|] == leaves;
  }

  lemma AwayOneMore(leaves: seq<Leave>, n: nat, lead: int, day: int)
    requires n < |leaves|
    ensures Away(leaves[..n + 1], Some(lead), day) <==>
            || Away(leaves[..n], Some(lead), day)
            || (leaves[n].lead == lead && leaves[n].approved && leaves[n].first <= day <= LeaveEnd(leaves[n]))
  {
    assert forall l :: l in leaves[..n + 1] <==> l in leaves[..n] || l == leaves[n];
  }

  lemma AwayByOneMore(before: map<int, seq<Absence>>, after: map<int, seq<Absence>>, l: Leave, leads: set<int>, first: int, last: int, lead: int, day: int)
    requires lead in leads && first <= day <= last
    requires after == if LeaveFetched(l, leads, first, last)
                      then before[l.lead := AbsencesOf(before, l.lead) + [Absence(l.first, LeaveEnd(l))]] else before
    ensures AwayBy(after, lead, day) <==>
            || AwayBy(before, lead, day)
            || (l.lead == lead && l.approved && l.first <= day <= LeaveEnd(l))
  {
    if LeaveFetched(l, leads, first, last) && l.lead == lead {
      var a := Absence(l.first, LeaveEnd(l));
      assert forall x :: x in AbsencesOf(after, lead) <==> x in AbsencesOf(before, lead) || x == a;
    } else {
      assert AbsencesOf(after, lead) == AbsencesOf(before, lead);
    }
  }

  // ---------------------------------------------------------------- the table

  class LedgerTable {
    var days: seq<LedgerDay>

    constructor (days: seq<LedgerDay>)
      ensures this.days == days
    {
      this.days := days;
    }

    /** Write one day, or leave the table alone. */
    method InsertDay(row: LedgerDay, engine: Engine) returns (written: bool)
      requires row.slot.Some?
      modifies this
      ensures written == Accepts(old(days), row, engine)
      ensures days == if written then old(days) + [row] else old(days)
    {
      if ClaimsWindow(row) {
        var taken := DaysAgainstWindow(days, row.resource.value, DayWindow(row), row.slot);
        if taken != [] {
          assert taken[0] in taken;
          return false;
        }
        assert forall other :: other in days && InTheWay(other, row.resource.value, DayWindow(row), row.slot) ==> other in taken;
      }
      assert !BlockedByOther(days, row);
      if Has(days, row.slot.value, row.date) || (engine.PostgreSQL? && Blocked(days, row)) {
        return false;
      }
      days := days + [row];
      written := true;
    }

    /** The one-day job: oldest slot first, a day that exists skipped. */
    method GenerateDaily(plan: Plan, date: int, engine: Engine) returns (created: int)
      modifies this
      ensures days == DayJob(old(days), plan, plan.slots, date, engine)
      ensures InIdOrder(plan.slots) ==> FilledIn(plan.slots, plan.leaves, old(days), days, date, date, engine)
      ensures created == |days| - |old(days)|
    {
      created := 0;
      for n := 0 to |plan.slots|
        invariant days == DayJob(old(days), plan, plan.slots[..n], date, engine)
        invariant created == |days| - |old(days)|
      {
        var slot := plan.slots[n];
        assert plan.slots[..n + 1][..n] == plan.slots[..n];
        OccursOnIsRunsOn(slot.rule, date);
        if Live(slot) && Within(Some(slot.cycle), date) && OccursOn(slot.rule, date) {
          var state := if Away(plan.leaves, slot.lead, date) then OnLeave else Scheduled;
          if !Has(days, slot.id, date) {
            var written := InsertDay(LedgerDay(date, Some(Hours(slot.start, slot.end)), Some(slot.id), slot.resource, slot.lead, state), engine);
            if written {
              created := created + 1;
            }
          }
        }
      }
      assert plan.slots[..|plan.slots|] == plan.slots;
      if InIdOrder(plan.slots) {
        DayJobFillsIn(plan, old(days), plan.slots, date, engine);
      }
    }

    /** Greedy as the code runs it: spans per room in a map, filled once from stored days near the range and
        then row by row. */
    method WithoutOverlaps(rows: seq<LedgerDay>, first: int, last: int) returns (kept: seq<LedgerDay>)
      requires forall row :: row in rows ==> first <= row.date <= last
      ensures days + kept == Greedy(days, rows)
    {
      var rooms := set row | row in rows && ClaimsWindow(row) :: row.resource.value;
      var held: map<int, seq<Span>> := map[];
      for n := 0 to |days|
        invariant Tracks(held, rooms, days[..n], first, last)
      {
        ghost var before := held;
        var day := days[n];
        if ClaimsWindow(day) && day.resource.value in rooms && first - 1 <= day.date <= last + 1 {
          held := held[day.resource.value := SpansOn(held, day.resource.value) + [WindowSpan(DayWindow(day))]];
        }
        TracksOneMore(before, held, rooms, days[..n], day, first, last);
        assert days[..n + 1] == days[..n] + [day];
      }
      assert days[..|days|] == days;
      kept := [];
      for n := 0 to |rows|
        invariant days + kept == Greedy(days, rows[..n])
        invariant Tracks(held, rooms, days + kept, first, last)
      {
        var row := rows[n];
        assert row in rows && rows[..n + 1][..n] == rows[..n];
        ghost var before, keptBefore := held, kept;
        if !ClaimsWindow(row) {
          kept := kept + [row];
        } else {
          var room := row.resource.value;
          if !exists span :: span in SpansOn(held, room) && Overlaps(span, WindowSpan(DayWindow(row))) {
            held := held[room := SpansOn(held, room) + [WindowSpan(DayWindow(row))]];
            kept := kept + [row];
          }
        }
        if kept != keptBefore {
          TracksOneMore(before, held, rooms, days + keptBefore, row, first, last);
          assert days + keptBefore + [row] == days + kept;
        }
      }
      assert rows[..|rows|] == rows;
    }

    /** The slot-dates of the window that have no row, gathered slot by slot. */
    method Missing(plan: Plan, first: int, last: int) returns (missing: seq<Due>)
      requires InIdOrder(plan.slots)
      ensures Distinct(missing)
      ensures forall due :: due in missing <==> due in DuesOver(plan.slots, days, first, last)
    {
      var have := set row | row in days && first <= row.date <= last :: (row.slot, row.date);
      missing := [];
      for n := 0 to |plan.slots|
        invariant Distinct(missing)
        invariant forall due :: due in missing <==> WantedFrom(plan.slots[..n], first, last, due)
      {
        var slot := plan.slots[n];
        ghost var earlier := missing;
        if Live(slot) && slot.cycle.first <= last && first <= slot.cycle.last {
          var dates := Occurrences(slot.rule, Max(first, slot.cycle.first), Min(last, slot.cycle.last));
          for m := 0 to |dates|
            invariant Distinct(missing)
            invariant forall due :: due in missing <==>
                        due in earlier || (due.slot == slot && due.day in dates[..m] && !Has(days, slot.id, due.day))
          {
            var day := dates[m];
            assert day in dates;
            HaveTells(have, slot.id, day, first, last);
            ghost var before := missing;
            if (Some(slot.id), day) !in have {
              missing := missing + [Due(day, slot)];
              NotAmongEarlier(plan.slots, n);
              assert day !in dates[..m];
              assert Due(day, slot) !in before;
            }
            assert forall d :: d in dates[..m + 1] <==> d in dates[..m] || d == day;
          }
          assert dates[..|dates|] == dates;
        }
        assert forall s :: s in plan.slots[..n + 1] <==> s in plan.slots[..n] || s == slot;
      }
      assert plan.slots[..|plan.slots|] == plan.slots;
      forall due ensures due in missing <==> due in DuesOver(plan.slots, days, first, last) {
        InDuesOver(plan.slots, days, first, last, due);
      }
    }

    /** A slot-date that should have a row and has none. */
    ghost predicate WantedFrom(slots: seq<Slot>, first: int, last: int, due: Due)
      reads this
    {
      first <= due.day <= last && due.slot in slots && DueOn(due.slot, due.day) && !Has(days, due.slot.id, due.day)
    }

    lemma HaveTells(have: set<(Option<int>, int)>, slot: int, day: int, first: int, last: int)
      requires have == set row | row in days && first <= row.date <= last :: (row.slot, row.date)
      requires first <= day <= last
      ensures (Some(slot), day) in have <==> Has(days, slot, day)
    {
      if row :| row in days && row.slot == Some(slot) && row.date == day {
        assert (row.slot, row.date) in have;
      }
    }

    /** The rows to write, with the lead's leave looked up in what was read once. */
    method RowsToWrite(plan: Plan, dues: seq<Due>, first: int, last: int) returns (rows: seq<LedgerDay>)
      requires forall due :: due in dues ==> first <= due.day <= last
      ensures rows == RowsFor(plan.leaves, dues)
      ensures forall k :: 0 <= k < |dues| ==> rows[k].date == dues[k].day && Copies(rows[k], dues[k].slot, plan.leaves)
    {
      var leads := set i | 0 <= i < |dues| && dues[i].slot.lead.Some? :: dues[i].slot.lead.value;
      var leave := LeaveIn(plan.leaves, leads, first, last);
      rows := [];
      for n := 0 to |dues|
        invariant rows == RowsFor(plan.leaves, dues[..n])
      {
        var slot, day := dues[n].slot, dues[n].day;
        assert dues[n] in dues;
        var away := slot.lead.Some? && exists a :: a in AbsencesOf(leave, slot.lead.value) && a.first <= day <= a.last;
        assert away <==> Away(plan.leaves, slot.lead, day) by {
          if slot.lead.Some? {
            assert slot.lead.value in leads;
            assert AwayBy(leave, slot.lead.value, day) <==> Away(plan.leaves, Some(slot.lead.value), day);
          }
        }
        rows := rows + [LedgerDay(day, Some(Hours(slot.start, slot.end)), Some(slot.id), slot.resource, slot.lead,
                                  if away then OnLeave else Scheduled)];
        assert rows == RowsFor(plan.leaves, dues[..n + 1]);
      }
      assert dues[..|dues|] == dues;
      forall k | 0 <= k < |dues| ensures rows[k].date == dues[k].day && Copies(rows[k], dues[k].slot, plan.leaves) {
        RowCopies(plan.leaves, dues[k]);
      }
    }

    /** The horizon: gather, sort, build, drop what collides, and write in batches. */
    method MaterializeHorizon(plan: Plan, first: int, last: int) returns (created: int)
      requires InIdOrder(plan.slots)
      modifies this
      ensures days == Batch(old(days), plan, first, last)
      ensures FilledIn(plan.slots, plan.leaves, old(days), days, first, last, PostgreSQL)
      ensures created == |days| - |old(days)|
    {
      var missing := Missing(plan, first, last);
      SortedIsDayMajor(plan.slots, days, first, last, missing);
      var dues := SortBy(missing, DueLe);
      forall due | due in dues ensures first <= due.day <= last {
        InDuesOver(plan.slots, days, first, last, due);
      }
      var rows := RowsToWrite(plan, dues, first, last);
      forall row | row in rows ensures first <= row.date <= last {
        var k :| 0 <= k < |rows| && rows[k] == row;
        assert dues[k] in dues;
      }
      var kept := WithoutOverlaps(rows, first, last);
      created := WriteInBatches(kept);
      BatchFillsIn(plan, old(days), first, last);
    }

    method WriteInBatches(kept: seq<LedgerDay>) returns (created: int)
      modifies this
      ensures days == old(days) + kept && created == |kept|
    {
      created := 0;
      var offset := 0;
      while offset < |kept|
        invariant 0 <= offset <= |kept| && created == offset
        invariant days == old(days) + kept[..offset]
      {
        var upTo := Min(offset + LEDGER_BATCH_SIZE, |kept|);
        var batch := kept[offset..upTo];
        days := days + batch;
        assert kept[..offset] + batch == kept[..upTo];
        created := created + |batch|;
        offset := upTo;
      }
      assert kept[..|kept|] == kept;
    }
  }
}
