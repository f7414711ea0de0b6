/** Turning the timetable into dated rows (backend/app/cron/ledger_generator.py): the one-day job,
    the batch over a whole horizon, and how the two compare. */
module Ledger {
  import opened Sequences
  import opened Time
  import opened Recurrence
  import opened Tables
  import opened Availability
  import opened RuleChecks

  /** A leave request: its first day, its last when it has one, and whether it was approved. */
  datatype Leave = Leave(lead: int, first: int, last: Option<int>, approved: bool)

  function LeaveEnd(l: Leave): int {
    if l.last.Some? then l.last.value else l.first
  }

  /** PostgreSQL carries an exclusion constraint on the ledger; SQLite has none. */
  datatype Engine = SQLite | PostgreSQL

  /** The timetable side of the job: slots in id order and the leave requests. */
  datatype Plan = Plan(slots: seq<Slot>, leaves: seq<Leave>)

  ghost predicate InIdOrder(slots: seq<Slot>) {
    forall i, j :: 0 <= i < j < |slots| ==> slots[i].id < slots[j].id
  }

  predicate DueOn(slot: Slot, day: int) {
    Live(slot) && SlotRunsOn(slot, day)
  }

  predicate Has(days: seq<LedgerDay>, slot: int, day: int) {
    exists row :: row in days && row.slot == Some(slot) && row.date == day
  }

  predicate Away(leaves: seq<Leave>, lead: Option<int>, day: int) {
    lead.Some? && exists l :: l in leaves && l.lead == lead.value && l.approved && l.first <= day <= LeaveEnd(l)
  }

  /** A due slot-date. */
  datatype Due = Due(day: int, slot: Slot)

  /** The day as it would be written: the slot's window copied, the lead's leave looked up. */
  function RowFor(leaves: seq<Leave>, due: Due): LedgerDay {
    LedgerDay(due.day, Some(Hours(due.slot.start, due.slot.end)), Some(due.slot.id), due.slot.resource, due.slot.lead,
              if Away(leaves, due.slot.lead, due.day) then OnLeave else Scheduled)
  }

  /** Two rows of the same room at one moment. */
  predicate Collide(a: LedgerDay, b: LedgerDay) {
    && a.resource.Some? && a.resource == b.resource && a.hours.Some? && b.hours.Some?
    && Overlaps(WindowSpan(DayWindow(a)), WindowSpan(DayWindow(b)))
  }

  predicate Blocked(days: seq<LedgerDay>, row: LedgerDay) {
    exists other :: other in days && Collide(other, row)
  }

  predicate BlockedByOther(days: seq<LedgerDay>, row: LedgerDay) {
    exists other :: other in days && other.slot != row.slot && Collide(other, row)
  }

  // ---------------------------------------------------------------- the one-day job

  /** What _insert_day writes: nothing on top of another slot's day; the unique key and, where there
      is one, the exclusion constraint answer for the slot's own. */
  predicate Accepts(days: seq<LedgerDay>, row: LedgerDay, engine: Engine) {
    && !BlockedByOther(days, row)
    && !(row.slot.Some? && Has(days, row.slot.value, row.date))
    && !(engine.PostgreSQL? && Blocked(days, row))
  }

  function DayJob(days: seq<LedgerDay>, plan: Plan, slots: seq<Slot>, date: int, engine: Engine): seq<LedgerDay> {
    if slots == [] then days
    else
      var before := DayJob(days, plan, slots[..|slots| - 1], date, engine);
      var slot := slots[|slots| - 1];
      var row := RowFor(plan.leaves, Due(date, slot));
      if DueOn(slot, date) && !Has(before, slot.id, date) && Accepts(before, row, engine) then before + [row] else before
  }

  function DayByDay(days: seq<LedgerDay>, plan: Plan, first: int, last: int, engine: Engine): seq<LedgerDay>
    decreases last - first + 1
  {
    if last < first then days
    else DayJob(DayByDay(days, plan, first, last - 1, engine), plan, plan.slots, last, engine)
  }

  // ---------------------------------------------------------------- the batch

  function DuesOn(slots: seq<Slot>, days: seq<LedgerDay>, date: int): seq<Due> {
    if slots == [] then []
    else
      var front, slot := DuesOn(slots[..|slots| - 1], days, date), slots[|slots| - 1];
      if DueOn(slot, date) && !Has(days, slot.id, date) then front + [Due(date, slot)] else front
  }

  /** All missing slot-dates of a range in the order of DueLt: what Batch and DayByDay both go through. */
  function DuesOver(slots: seq<Slot>, days: seq<LedgerDay>, first: int, last: int): seq<Due>
    decreases last - first + 1
  {
    if last < first then [] else DuesOver(slots, days, first, last - 1) + DuesOn(slots, days, last)
  }

  function RowsFor(leaves: seq<Leave>, dues: seq<Due>): seq<LedgerDay> {
    seq(|dues|, i requires 0 <= i < |dues| => RowFor(leaves, dues[i]))
  }

  /** Walk the rows in order and keep one only if it sits on nothing there or already kept. */
  function Greedy(days: seq<LedgerDay>, rows: seq<LedgerDay>): seq<LedgerDay> {
    if rows == [] then days
    else
      var before := Greedy(days, rows[..|rows| - 1]);
      if Blocked(before, rows[|rows| - 1]) then before else before + [rows[|rows| - 1]]
  }

  function Batch(days: seq<LedgerDay>, plan: Plan, first: int, last: int): seq<LedgerDay> {
    Greedy(days, RowsFor(plan.leaves, DuesOver(plan.slots, days, first, last)))
  }

  // ---------------------------------------------------------------- what the lists hold

  lemma {:induction false} InDuesOn(slots: seq<Slot>, days: seq<LedgerDay>, date: int, due: Due)
    ensures due in DuesOn(slots, days, date)
       <==> due.day == date && due.slot in slots && DueOn(due.slot, date) && !Has(days, due.slot.id, date)
  {
    if slots != [] {
      var front, slot := slots[..|slots| - 1], slots[|slots| - 1];
      InDuesOn(front, days, date, due);
      assert due.slot in slots <==> due.slot in front || due.slot == slot;
    }
  }

  lemma {:induction false} InDuesOver(slots: seq<Slot>, days: seq<LedgerDay>, first: int, last: int, due: Due)
    ensures due in DuesOver(slots, days, first, last)
       <==> first <= due.day <= last && due.slot in slots && DueOn(due.slot, due.day) && !Has(days, due.slot.id, due.day)
    decreases last - first + 1
  {
    if first <= last {
      InDuesOver(slots, days, first, last - 1, due);
      InDuesOn(slots, days, last, due);
    }
  }

  /** Existing rows are left as they are, and every new one is one of the rows asked for. */
  lemma {:induction false} GreedyGrows(days: seq<LedgerDay>, rows: seq<LedgerDay>)
    ensures days <= Greedy(days, rows)
    ensures forall x :: x in Greedy(days, rows) ==> x in days || x in rows
  {
    if rows != [] {
      GreedyGrows(days, rows[..|rows| - 1]);
      assert rows[|rows| - 1] in rows;
    }
  }

  /** No row is added on top of one that is there. */
  ghost predicate NothingAddedOver(days: seq<LedgerDay>, after: seq<LedgerDay>) {
    forall i, j :: 0 <= i < j < |after| && |days| <= j ==> !Collide(after[i], after[j])
  }

  lemma {:induction false} GreedyAddsNoOverlap(days: seq<LedgerDay>, rows: seq<LedgerDay>)
    ensures NothingAddedOver(days, Greedy(days, rows))
  {
    if rows != [] {
      var before := Greedy(days, rows[..|rows| - 1]);
      GreedyAddsNoOverlap(days, rows[..|rows| - 1]);
      GreedyGrows(days, rows[..|rows| - 1]);
      var row := rows[|rows| - 1];
      if !Blocked(before, row) {
        forall i | 0 <= i < |before| ensures !Collide(before[i], row) {
          assert before[i] in before;
        }
      }
    }
  }

  /** Every row asked for is there, or something there is in its way. */
  lemma {:induction false} GreedyIsMaximal(days: seq<LedgerDay>, rows: seq<LedgerDay>)
    ensures forall row :: row in rows ==> row in Greedy(days, rows) || Blocked(Greedy(days, rows), row)
  {
    if rows != [] {
      var front, last := rows[..|rows| - 1], rows[|rows| - 1];
      GreedyIsMaximal(days, front);
      var before, after := Greedy(days, front), Greedy(days, rows);
      assert forall x :: x in before ==> x in after;
      forall row | row in rows ensures row in after || Blocked(after, row) {
        if row in front && row !in before {
          var other :| other in before && Collide(other, row);
          assert other in after;
        }
      }
    }
  }

  lemma {:induction false} GreedyAllBlocked(days: seq<LedgerDay>, rows: seq<LedgerDay>)
    requires forall row :: row in rows ==> Blocked(days, row)
    ensures Greedy(days, rows) == days
  {
    if rows != [] {
      GreedyAllBlocked(days, rows[..|rows| - 1]);
      assert rows[|rows| - 1] in rows;
    }
  }

  /** Writing the horizon never adds a room overlap, leaves existing rows in place, and is maximal:
      every due slot-date ends with a row or overlaps one on its room. */
  lemma BatchIsSoundAndMaximal(days: seq<LedgerDay>, plan: Plan, first: int, last: int)
    ensures days <= Batch(days, plan, first, last)
    ensures NothingAddedOver(days, Batch(days, plan, first, last))
    ensures forall slot, day :: slot in plan.slots && first <= day <= last && DueOn(slot, day) ==>
              || Has(Batch(days, plan, first, last), slot.id, day)
              || Blocked(Batch(days, plan, first, last), RowFor(plan.leaves, Due(day, slot)))
    ensures forall row :: row in Batch(days, plan, first, last) && row !in days ==>
              exists due :: row == RowFor(plan.leaves, due) && due.slot in plan.slots && first <= due.day <= last
                         && DueOn(due.slot, due.day) && !Has(days, due.slot.id, due.day)
  {
    var dues := DuesOver(plan.slots, days, first, last);
    var rows := RowsFor(plan.leaves, dues);
    var after := Batch(days, plan, first, last);
    GreedyGrows(days, rows);
    GreedyAddsNoOverlap(days, rows);
    GreedyIsMaximal(days, rows);
    forall slot, day | slot in plan.slots && first <= day <= last && DueOn(slot, day)
      ensures Has(after, slot.id, day) || Blocked(after, RowFor(plan.leaves, Due(day, slot)))
    {
      var due := Due(day, slot);
      InDuesOver(plan.slots, days, first, last, due);
      if Has(days, slot.id, day) {
        var row :| row in days && row.slot == Some(slot.id) && row.date == day;
        assert row in after;
      } else {
        RowInRows(plan.leaves, dues, due);
        assert RowFor(plan.leaves, due).slot == Some(slot.id);
      }
    }
    forall row | row in after && row !in days
      ensures exists due :: row == RowFor(plan.leaves, due) && due.slot in plan.slots && first <= due.day <= last
                         && DueOn(due.slot, due.day) && !Has(days, due.slot.id, due.day)
    {
      var k :| 0 <= k < |rows| && rows[k] == row;
      assert dues[k] in dues;
      InDuesOver(plan.slots, days, first, last, dues[k]);
    }
  }

  lemma RowInRows(leaves: seq<Leave>, dues: seq<Due>, due: Due)
    requires due in dues
    ensures RowFor(leaves, due) in RowsFor(leaves, dues)
  {
    var k :| 0 <= k < |dues| && dues[k] == due;
    assert RowsFor(leaves, dues)[k] == RowFor(leaves, due);
  }

  /** The batch is idempotent: its own result gives it nothing to add. */
  lemma BatchTwice(days: seq<LedgerDay>, plan: Plan, first: int, last: int)
    ensures Batch(Batch(days, plan, first, last), plan, first, last) == Batch(days, plan, first, last)
  {
    var after := Batch(days, plan, first, last);
    BatchIsSoundAndMaximal(days, plan, first, last);
    var dues := DuesOver(plan.slots, after, first, last);
    var rows := RowsFor(plan.leaves, dues);
    forall row | row in rows ensures Blocked(after, row) {
      var k :| 0 <= k < |rows| && rows[k] == row;
      assert dues[k] in dues;
      InDuesOver(plan.slots, after, first, last, dues[k]);
    }
    GreedyAllBlocked(after, rows);
  }

  // ---------------------------------------------------------------- the order of the work

  /** The sort key (day, slot id). */
  predicate DueLe(a: Due, b: Due) {
    if a.day != b.day then a.day < b.day else a.slot.id <= b.slot.id
  }

  predicate DueLt(a: Due, b: Due) {
    if a.day != b.day then a.day < b.day else a.slot.id < b.slot.id
  }

  lemma {:induction false} DuesOnInOrder(slots: seq<Slot>, days: seq<LedgerDay>, date: int)
    requires InIdOrder(slots)
    ensures forall i, j :: 0 <= i < j < |DuesOn(slots, days, date)| ==> DueLt(DuesOn(slots, days, date)[i], DuesOn(slots, days, date)[j])
  {
    if slots != [] {
      var front, slot := slots[..|slots| - 1], slots[|slots| - 1];
      DuesOnInOrder(front, days, date);
      var dues := DuesOn(front, days, date);
      forall i | 0 <= i < |dues| ensures DueLt(dues[i], Due(date, slot)) {
        assert dues[i] in dues;
        InDuesOn(front, days, date, dues[i]);
        var k :| 0 <= k < |front| && front[k] == dues[i].slot;
        assert slots[k] == dues[i].slot;
      }
    }
  }

  lemma {:induction false} DuesOverInOrder(slots: seq<Slot>, days: seq<LedgerDay>, first: int, last: int)
    requires InIdOrder(slots)
    ensures forall i, j :: 0 <= i < j < |DuesOver(slots, days, first, last)| ==>
              DueLt(DuesOver(slots, days, first, last)[i], DuesOver(slots, days, first, last)[j])
    decreases last - first + 1
  {
    if first <= last {
      var a, b := DuesOver(slots, days, first, last - 1), DuesOn(slots, days, last);
      DuesOverInOrder(slots, days, first, last - 1);
      DuesOnInOrder(slots, days, last);
      forall i, j | 0 <= i < |a| && 0 <= j < |b| ensures DueLt(a[i], b[j]) {
        assert a[i] in a && b[j] in b;
        InDuesOver(slots, days, first, last - 1, a[i]);
        InDuesOn(slots, days, last, b[j]);
      }
    }
  }

  // ---------------------------------------------------------------- batch against day by day

  /** What stops a row: another slot's day and, on PostgreSQL, any day. */
  predicate InTheWayOf(days: seq<LedgerDay>, row: LedgerDay, engine: Engine) {
    BlockedByOther(days, row) || (engine.PostgreSQL? && Blocked(days, row))
  }

  /** The same walk as Greedy with the one-day job's test. */
  function Keep(days: seq<LedgerDay>, rows: seq<LedgerDay>, engine: Engine): seq<LedgerDay> {
    if rows == [] then days
    else
      var before := Keep(days, rows[..|rows| - 1], engine);
      if InTheWayOf(before, rows[|rows| - 1], engine) then before else before + [rows[|rows| - 1]]
  }

  lemma {:induction false} KeepConcat(days: seq<LedgerDay>, a: seq<LedgerDay>, b: seq<LedgerDay>, engine: Engine)
    ensures Keep(days, a + b, engine) == Keep(Keep(days, a, engine), b, engine)
  {
    if b == [] {
      assert a + b == a;
    } else {
      assert (a + b)[..|a + b| - 1] == a + b[..|b| - 1];
      KeepConcat(days, a, b[..|b| - 1], engine);
    }
  }

  lemma {:induction false} KeepGrows(days: seq<LedgerDay>, rows: seq<LedgerDay>, engine: Engine)
    ensures days <= Keep(days, rows, engine)
    ensures forall x :: x in Keep(days, rows, engine) ==> x in days || x in rows
  {
    if rows != [] {
      KeepGrows(days, rows[..|rows| - 1], engine);
      assert rows[|rows| - 1] in rows;
    }
  }

  lemma {:induction false} PostgreSQLKeeps(days: seq<LedgerDay>, rows: seq<LedgerDay>)
    ensures Keep(days, rows, PostgreSQL) == Greedy(days, rows)
  {
    if rows != [] {
      PostgreSQLKeeps(days, rows[..|rows| - 1]);
    }
  }

  lemma KeepOneMore(days: seq<LedgerDay>, rows: seq<LedgerDay>, row: LedgerDay, engine: Engine)
    ensures Keep(days, rows + [row], engine)
         == if InTheWayOf(Keep(days, rows, engine), row, engine) then Keep(days, rows, engine) else Keep(days, rows, engine) + [row]
  {
    assert (rows + [row])[..|rows|] == rows;
  }

  lemma {:induction false} DayJobLeavesOthers(plan: Plan, now: seq<LedgerDay>, slots: seq<Slot>, date: int, engine: Engine, id: int)
    requires forall slot :: slot in slots ==> slot.id != id
    ensures Has(DayJob(now, plan, slots, date, engine), id, date) <==> Has(now, id, date)
  {
    if slots != [] {
      DayJobLeavesOthers(plan, now, slots[..|slots| - 1], date, engine, id);
    }
  }

  lemma RowsForOneMore(leaves: seq<Leave>, dues: seq<Due>, due: Due)
    ensures RowsFor(leaves, dues + [due]) == RowsFor(leaves, dues) + [RowFor(leaves, due)]
  {
  }

  /** On a date nothing has been written for, the one-day job meets the same missing slots as the batch. */
  lemma {:induction false} DayJobKeeps(plan: Plan, days: seq<LedgerDay>, now: seq<LedgerDay>, slots: seq<Slot>, date: int, engine: Engine)
    requires InIdOrder(slots)
    requires forall slot: int :: Has(now, slot, date) <==> Has(days, slot, date)
    ensures DayJob(now, plan, slots, date, engine) == Keep(now, RowsFor(plan.leaves, DuesOn(slots, days, date)), engine)
  {
    if slots != [] {
      var front, slot := slots[..|slots| - 1], slots[|slots| - 1];
      var due, dues := Due(date, slot), DuesOn(front, days, date);
      DayJobKeeps(plan, days, now, front, date, engine);
      DayJobLeavesOthers(plan, now, front, date, engine, slot.id);
      RowsForOneMore(plan.leaves, dues, due);
      KeepOneMore(now, RowsFor(plan.leaves, dues), RowFor(plan.leaves, due), engine);
    }
  }

  function RowsOver(plan: Plan, days: seq<LedgerDay>, first: int, last: int): seq<LedgerDay> {
    RowsFor(plan.leaves, DuesOver(plan.slots, days, first, last))
  }

  lemma NoneYet(plan: Plan, days: seq<LedgerDay>, first: int, last: int, engine: Engine, slot: int)
    ensures Has(Keep(days, RowsOver(plan, days, first, last - 1), engine), slot, last) <==> Has(days, slot, last)
  {
    var dues, rows := DuesOver(plan.slots, days, first, last - 1), RowsOver(plan, days, first, last - 1);
    var now := Keep(days, rows, engine);
    KeepGrows(days, rows, engine);
    assert forall x :: x in days ==> x in now;
    forall x | x in rows ensures x.date < last {
      var k :| 0 <= k < |rows| && rows[k] == x;
      assert dues[k] in dues;
      InDuesOver(plan.slots, days, first, last - 1, dues[k]);
    }
  }

  /** Day after day the job walks the batch's own list, in its order. */
  lemma {:induction false} DayByDayKeeps(plan: Plan, days: seq<LedgerDay>, first: int, last: int, engine: Engine)
    requires InIdOrder(plan.slots)
    ensures DayByDay(days, plan, first, last, engine) == Keep(days, RowsOver(plan, days, first, last), engine)
    decreases last - first + 1
  {
    if first <= last {
      DayByDayKeeps(plan, days, first, last - 1, engine);
      DayAfterKept(plan, days, first, last, engine);
      KeepOneMoreDay(plan, days, first, last, engine);
    }
  }

  lemma DayAfterKept(plan: Plan, days: seq<LedgerDay>, first: int, last: int, engine: Engine)
    requires InIdOrder(plan.slots)
    ensures DayJob(Keep(days, RowsOver(plan, days, first, last - 1), engine), plan, plan.slots, last, engine)
         == Keep(Keep(days, RowsOver(plan, days, first, last - 1), engine), RowsFor(plan.leaves, DuesOn(plan.slots, days, last)), engine)
  {
    forall slot: int ensures Has(Keep(days, RowsOver(plan, days, first, last - 1), engine), slot, last) <==> Has(days, slot, last) {
      NoneYet(plan, days, first, last, engine, slot);
    }
    DayJobKeeps(plan, days, Keep(days, RowsOver(plan, days, first, last - 1), engine), plan.slots, last, engine);
  }

  lemma KeepOneMoreDay(plan: Plan, days: seq<LedgerDay>, first: int, last: int, engine: Engine)
    requires first <= last
    ensures Keep(days, RowsOver(plan, days, first, last), engine)
         == Keep(Keep(days, RowsOver(plan, days, first, last - 1), engine), RowsFor(plan.leaves, DuesOn(plan.slots, days, last)), engine)
  {
    var a, b := DuesOver(plan.slots, days, first, last - 1), DuesOn(plan.slots, days, last);
    assert RowsFor(plan.leaves, a + b) == RowsFor(plan.leaves, a) + RowsFor(plan.leaves, b);
    KeepConcat(days, RowsFor(plan.leaves, a), RowsFor(plan.leaves, b), engine);
  }

  /** The refinement: on PostgreSQL the batch writes what the one-day job would, row for row, always. */
  lemma BatchRefinesDayByDay(plan: Plan, days: seq<LedgerDay>, first: int, last: int)
    requires InIdOrder(plan.slots)
    ensures DayByDay(days, plan, first, last, PostgreSQL) == Batch(days, plan, first, last)
  {
    DayByDayKeeps(plan, days, first, last, PostgreSQL);
    PostgreSQLKeeps(days, RowsOver(plan, days, first, last));
  }

  // ---------------------------------------------------------------- what is written

  /** The slot is in use and its rule has it take place on the date, inside its cycle. */
  predicate TakesPlace(slot: Slot, day: int) {
    && slot.cycle.open && !slot.retired && !slot.activityRetired
    && slot.cycle.first <= day <= slot.cycle.last && slot.rule.dtstart <= day && slot.rule.lands(day)
  }

  /** An approved leave without a last day is its first day alone. */
  ghost predicate OnLeaveOn(leaves: seq<Leave>, lead: Option<int>, day: int) {
    exists l :: l in leaves && l.approved && lead == Some(l.lead) && l.first <= day && if l.last.Some? then day <= l.last.value else day == l.first
  }

  /** The row is a slot's, with its room, lead and times, and says whether the lead is away that day. */
  ghost predicate Copies(row: LedgerDay, slot: Slot, leaves: seq<Leave>) {
    && row.slot == Some(slot.id) && row.resource == slot.resource && row.lead == slot.lead
    && row.hours.Some? && row.hours.value.start == slot.start && row.hours.value.end == slot.end
    && (row.state == OnLeave <==> OnLeaveOn(leaves, slot.lead, row.date))
    && (row.state == Scheduled <==> !OnLeaveOn(leaves, slot.lead, row.date))
  }

  ghost predicate Written(slots: seq<Slot>, leaves: seq<Leave>, row: LedgerDay, first: int, last: int) {
    first <= row.date <= last && exists slot :: slot in slots && TakesPlace(slot, row.date) && Copies(row, slot, leaves)
  }

  /** The slot has a row on the date, or its room is taken by one that overlaps it and came first: a row that was
      there, an earlier day's, or an older slot's. */
  ghost predicate Answered(days: seq<LedgerDay>, after: seq<LedgerDay>, slot: Slot, day: int) {
    || (exists row :: row in after && row.slot == Some(slot.id) && row.date == day)
    || (slot.resource.Some? && exists row :: row in after && CameFirst(days, row, slot, day) && TakesRoomOf(row, slot, day))
  }

  predicate TakesRoomOf(row: LedgerDay, slot: Slot, day: int) {
    row.resource == slot.resource && row.hours.Some? && Overlaps(WindowSpan(DayWindow(row)), WindowSpan(Window(day, slot.start, slot.end)))
  }

  predicate CameFirst(days: seq<LedgerDay>, row: LedgerDay, slot: Slot, day: int) {
    row in days || row.date < day || (row.date == day && row.slot.Some? && row.slot.value < slot.id)
  }

  /** What is new in the table after a run over a range: the rows from |days| on. Each is a slot's, for a date of the
      range. */
  ghost predicate AllWritten(slots: seq<Slot>, leaves: seq<Leave>, days: seq<LedgerDay>, after: seq<LedgerDay>, first: int, last: int) {
    forall j :: |days| <= j < |after| ==> Written(slots, leaves, after[j], first, last)
  }

  /** None repeats an earlier row's slot and date, and none sits on an earlier row, unless there is no constraint and
      that row is its own slot's. */
  ghost predicate NoneInTheWay(days: seq<LedgerDay>, after: seq<LedgerDay>, engine: Engine) {
    forall i, j :: 0 <= i < j < |after| && |days| <= j ==>
      && !(after[i].slot == after[j].slot && after[i].date == after[j].date)
      && (Collide(after[i], after[j]) ==> engine.SQLite? && after[i].slot == after[j].slot)
  }

  /** No slot that takes place in the range goes unanswered. */
  ghost predicate AllAnswered(slots: seq<Slot>, days: seq<LedgerDay>, after: seq<LedgerDay>, first: int, last: int) {
    forall slot, day :: slot in slots && first <= day <= last && TakesPlace(slot, day) ==> Answered(days, after, slot, day)
  }

  ghost predicate FilledIn(slots: seq<Slot>, leaves: seq<Leave>, days: seq<LedgerDay>, after: seq<LedgerDay>, first: int, last: int, engine: Engine) {
    && days <= after && AllWritten(slots, leaves, days, after, first, last) && NoneInTheWay(days, after, engine)
    && AllAnswered(slots, days, after, first, last)
  }

  lemma RowCopies(leaves: seq<Leave>, due: Due)
    ensures Copies(RowFor(leaves, due), due.slot, leaves)
  {
    assert Away(leaves, due.slot.lead, due.day) <==> OnLeaveOn(leaves, due.slot.lead, due.day);
  }

  lemma RowIsWritten(slots: seq<Slot>, leaves: seq<Leave>, slot: Slot, date: int)
    requires slot in slots && DueOn(slot, date)
    ensures Written(slots, leaves, RowFor(leaves, Due(date, slot)), date, date)
  {
    RowCopies(leaves, Due(date, slot));
  }

  lemma WrittenStill(slots: seq<Slot>, more: seq<Slot>, leaves: seq<Leave>, row: LedgerDay, first: int, last: int, from: int, to: int)
    requires Written(slots, leaves, row, first, last) && (forall slot :: slot in slots ==> slot in more) && from <= first && last <= to
    ensures Written(more, leaves, row, from, to)
  {
  }

  lemma AnsweredStill(days: seq<LedgerDay>, now: seq<LedgerDay>, after: seq<LedgerDay>, slot: Slot, day: int)
    requires Answered(days, now, slot, day) && now <= after
    ensures Answered(days, after, slot, day)
  {
    assert forall row :: row in now ==> row in after;
  }

  lemma OlderCameFirst(slots: seq<Slot>, leaves: seq<Leave>, days: seq<LedgerDay>, now: seq<LedgerDay>, date: int, row: LedgerDay)
    requires InIdOrder(slots) && slots != [] && days <= now && AllWritten(slots[..|slots| - 1], leaves, days, now, date, date) && row in now
    ensures CameFirst(days, row, slots[|slots| - 1], date)
  {
    var k :| 0 <= k < |now| && now[k] == row;
    if k < |days| {
      assert days[k] == row;
    } else {
      assert Written(slots[..|slots| - 1], leaves, now[k], date, date);
    }
  }

  /** A slot the job passes over is answered already. */
  lemma PassedOverIsAnswered(slots: seq<Slot>, leaves: seq<Leave>, days: seq<LedgerDay>, now: seq<LedgerDay>, date: int, engine: Engine)
    requires InIdOrder(slots) && slots != [] && days <= now && AllWritten(slots[..|slots| - 1], leaves, days, now, date, date)
    requires Has(now, slots[|slots| - 1].id, date) || !Accepts(now, RowFor(leaves, Due(date, slots[|slots| - 1])), engine)
    ensures Answered(days, now, slots[|slots| - 1], date)
  {
    var slot := slots[|slots| - 1];
    if !Has(now, slot.id, date) {
      var row := RowFor(leaves, Due(date, slot));
      var other :| other in now && Collide(other, row);
      OlderCameFirst(slots, leaves, days, now, date, other);
      assert DayWindow(row) == Window(date, slot.start, slot.end);
    }
  }

  lemma WrittenFromMore(slots: seq<Slot>, leaves: seq<Leave>, days: seq<LedgerDay>, now: seq<LedgerDay>, date: int)
    requires slots != [] && AllWritten(slots[..|slots| - 1], leaves, days, now, date, date)
    ensures AllWritten(slots, leaves, days, now, date, date)
  {
    forall j | |days| <= j < |now| ensures Written(slots, leaves, now[j], date, date) {
      WrittenStill(slots[..|slots| - 1], slots, leaves, now[j], date, date, date, date);
    }
  }

  lemma AnsweredOneMore(slots: seq<Slot>, days: seq<LedgerDay>, now: seq<LedgerDay>, after: seq<LedgerDay>, date: int)
    requires slots != [] && AllAnswered(slots[..|slots| - 1], days, now, date, date) && now <= after
    requires TakesPlace(slots[|slots| - 1], date) ==> Answered(days, after, slots[|slots| - 1], date)
    ensures AllAnswered(slots, days, after, date, date)
  {
    forall slot, day | slot in slots && date <= day <= date && TakesPlace(slot, day) ensures Answered(days, after, slot, day) {
      if slot in slots[..|slots| - 1] {
        AnsweredStill(days, now, after, slot, day);
      }
    }
  }

  lemma AcceptedIsNotInTheWay(days: seq<LedgerDay>, now: seq<LedgerDay>, row: LedgerDay, engine: Engine)
    requires days <= now && NoneInTheWay(days, now, engine) && row.slot.Some? && Accepts(now, row, engine)
    ensures NoneInTheWay(days, now + [row], engine)
  {
    assert forall i :: 0 <= i < |now| ==> now[i] in now && (now + [row])[i] == now[i];
  }

  lemma {:induction false} DayJobFillsIn(plan: Plan, days: seq<LedgerDay>, slots: seq<Slot>, date: int, engine: Engine)
    requires InIdOrder(slots)
    ensures FilledIn(slots, plan.leaves, days, DayJob(days, plan, slots, date, engine), date, date, engine)
  {
    if slots != [] {
      var front, slot := slots[..|slots| - 1], slots[|slots| - 1];
      var now, row := DayJob(days, plan, front, date, engine), RowFor(plan.leaves, Due(date, slot));
      DayJobFillsIn(plan, days, front, date, engine);
      if DueOn(slot, date) && !Has(now, slot.id, date) && Accepts(now, row, engine) {
        RowIsWritten(slots, plan.leaves, slot, date);
        WrittenFromMore(slots, plan.leaves, days, now, date);
        AcceptedIsNotInTheWay(days, now, row, engine);
        assert row in now + [row];
        AnsweredOneMore(slots, days, now, now + [row], date);
      } else {
        if DueOn(slot, date) {
          PassedOverIsAnswered(slots, plan.leaves, days, now, date, engine);
        }
        WrittenFromMore(slots, plan.leaves, days, now, date);
        AnsweredOneMore(slots, days, now, now, date);
      }
    }
  }

  /** What was written on the days before came first. */
  lemma AnsweredSince(slots: seq<Slot>, leaves: seq<Leave>, days: seq<LedgerDay>, now: seq<LedgerDay>, after: seq<LedgerDay>, first: int, last: int, slot: Slot)
    requires days <= now && AllWritten(slots, leaves, days, now, first, last - 1) && Answered(now, after, slot, last)
    ensures Answered(days, after, slot, last)
  {
    forall row | row in now ensures row in days || row.date < last {
      var k :| 0 <= k < |now| && now[k] == row;
      if k < |days| {
        assert days[k] == row;
      } else {
        assert Written(slots, leaves, now[k], first, last - 1);
      }
    }
  }

  /** Filling in one range and then the next fills in both. */
  lemma FilledInTurn(slots: seq<Slot>, leaves: seq<Leave>, days: seq<LedgerDay>, now: seq<LedgerDay>, after: seq<LedgerDay>, first: int, last: int, engine: Engine)
    requires first <= last && FilledIn(slots, leaves, days, now, first, last - 1, engine) && FilledIn(slots, leaves, now, after, last, last, engine)
    ensures FilledIn(slots, leaves, days, after, first, last, engine)
  {
    assert forall i :: 0 <= i < |now| ==> after[i] == now[i];
    forall j | |days| <= j < |after| ensures Written(slots, leaves, after[j], first, last) {
      if j < |now| {
        WrittenStill(slots, slots, leaves, now[j], first, last - 1, first, last);
      } else {
        WrittenStill(slots, slots, leaves, after[j], last, last, first, last);
      }
    }
    forall slot, day | slot in slots && first <= day <= last && TakesPlace(slot, day) ensures Answered(days, after, slot, day) {
      if day < last {
        AnsweredStill(days, now, after, slot, day);
      } else {
        AnsweredSince(slots, leaves, days, now, after, first, last, slot);
      }
    }
  }

  /** Day by day, on either engine, the job writes each slot's rows as they should read, each once, none over another
      slot's, and none is left out without a reason. */
  lemma {:induction false} DayByDayFillsIn(plan: Plan, days: seq<LedgerDay>, first: int, last: int, engine: Engine)
    requires InIdOrder(plan.slots)
    ensures FilledIn(plan.slots, plan.leaves, days, DayByDay(days, plan, first, last, engine), first, last, engine)
    decreases last - first + 1
  {
    if first <= last {
      var now := DayByDay(days, plan, first, last - 1, engine);
      DayByDayFillsIn(plan, days, first, last - 1, engine);
      DayJobFillsIn(plan, now, plan.slots, last, engine);
      FilledInTurn(plan.slots, plan.leaves, days, now, DayByDay(days, plan, first, last, engine), first, last, engine);
    }
  }

  /** And so does the batch, as if there were a constraint wherever it runs. */
  lemma BatchFillsIn(plan: Plan, days: seq<LedgerDay>, first: int, last: int)
    requires InIdOrder(plan.slots)
    ensures FilledIn(plan.slots, plan.leaves, days, Batch(days, plan, first, last), first, last, PostgreSQL)
  {
    DayByDayFillsIn(plan, days, first, last, PostgreSQL);
    BatchRefinesDayByDay(plan, days, first, last);
  }

  // ---------------------------------------------------------------- where there is no constraint

  /** A stored day of the row's own slot in the row's way: one that no longer carries the slot's window. */
  ghost predicate OnOwnDay(days: seq<LedgerDay>, row: LedgerDay) {
    exists other :: other in days && other.slot == row.slot && Collide(other, row)
  }

  /** The n-th row is not in the way of a stored day of its own slot, or another slot's day stops it too. */
  ghost predicate GuardedAt(days: seq<LedgerDay>, rows: seq<LedgerDay>, n: int)
    requires 0 <= n < |rows|
  {
    OnOwnDay(days, rows[n]) ==> BlockedByOther(Greedy(days, rows[..n]), rows[n])
  }

  ghost predicate Guarded(days: seq<LedgerDay>, rows: seq<LedgerDay>) {
    forall n :: 0 <= n < |rows| ==> GuardedAt(days, rows, n)
  }

  /** Rows of one slot in the list never meet: they carry one window on different dates. */
  ghost predicate OwnApart(rows: seq<LedgerDay>) {
    forall i, j :: 0 <= i < j < |rows| && rows[i].slot == rows[j].slot ==> !Collide(rows[i], rows[j])
  }

  lemma RowsOverApart(plan: Plan, days: seq<LedgerDay>, first: int, last: int)
    requires InIdOrder(plan.slots)
    ensures OwnApart(RowsOver(plan, days, first, last))
    ensures forall row :: row in RowsOver(plan, days, first, last) ==> row !in days
  {
    var dues, rows := DuesOver(plan.slots, days, first, last), RowsOver(plan, days, first, last);
    DuesOverInOrder(plan.slots, days, first, last);
    forall i | 0 <= i < |dues| ensures dues[i].slot in plan.slots && rows[i] !in days {
      assert dues[i] in dues;
      InDuesOver(plan.slots, days, first, last, dues[i]);
    }
    forall i, j | 0 <= i < j < |rows| && rows[i].slot == rows[j].slot ensures !Collide(rows[i], rows[j]) {
      assert DueLt(dues[i], dues[j]);
      SameTimesApart(DayWindow(rows[i]), DayWindow(rows[j]));
    }
  }

  /** What has been kept of the list stops a later row of the same slot only from among the stored days. */
  lemma OwnDayWasStored(days: seq<LedgerDay>, rows: seq<LedgerDay>, n: nat)
    requires OwnApart(rows) && n < |rows|
    ensures Blocked(Greedy(days, rows[..n]), rows[n])
       <==> BlockedByOther(Greedy(days, rows[..n]), rows[n]) || OnOwnDay(days, rows[n])
  {
    var now := Greedy(days, rows[..n]);
    GreedyGrows(days, rows[..n]);
    assert forall x :: x in days ==> x in now;
    forall other | other in now && other.slot == rows[n].slot && Collide(other, rows[n]) ensures other in days {
      assert forall k :: 0 <= k < n ==> rows[..n][k] == rows[k] && !(rows[k].slot == rows[n].slot && Collide(rows[k], rows[n]));
    }
  }

  lemma {:induction false} GuardedKeeps(days: seq<LedgerDay>, rows: seq<LedgerDay>, n: nat)
    requires OwnApart(rows) && n <= |rows| && forall k :: 0 <= k < n ==> GuardedAt(days, rows, k)
    ensures Keep(days, rows[..n], SQLite) == Greedy(days, rows[..n])
  {
    if n > 0 {
      assert rows[..n][..n - 1] == rows[..n - 1];
      assert GuardedAt(days, rows, n - 1);
      GuardedKeeps(days, rows, n - 1);
      OwnDayWasStored(days, rows, n - 1);
    }
  }

  /** The first row let through on a stored day of its own slot is one the batch never writes. */
  lemma UnguardedDiffers(days: seq<LedgerDay>, rows: seq<LedgerDay>, n: nat)
    requires OwnApart(rows) && n < |rows| && forall k :: 0 <= k < n ==> GuardedAt(days, rows, k)
    requires !GuardedAt(days, rows, n) && rows[n] !in days
    ensures Keep(days, rows, SQLite) != Greedy(days, rows)
  {
    GuardedKeeps(days, rows, n);
    KeptStays(days, rows, n, SQLite);
    NeverOnStored(days, rows, rows[n]);
  }

  lemma KeptStays(days: seq<LedgerDay>, rows: seq<LedgerDay>, n: nat, engine: Engine)
    requires n < |rows| && !InTheWayOf(Keep(days, rows[..n], engine), rows[n], engine)
    ensures rows[n] in Keep(days, rows, engine)
  {
    assert rows[..n + 1] == rows[..n] + [rows[n]] && rows == rows[..n + 1] + rows[n + 1..];
    KeepOneMore(days, rows[..n], rows[n], engine);
    var upTo := Keep(days, rows[..n + 1], engine);
    KeepConcat(days, rows[..n + 1], rows[n + 1..], engine);
    KeepGrows(upTo, rows[n + 1..], engine);
    assert Keep(days, rows, engine)[|upTo| - 1] == upTo[|upTo| - 1];
  }

  lemma NeverOnStored(days: seq<LedgerDay>, rows: seq<LedgerDay>, row: LedgerDay)
    requires OnOwnDay(days, row) && row !in days
    ensures row !in Greedy(days, rows)
  {
    var after := Greedy(days, rows);
    GreedyGrows(days, rows);
    GreedyAddsNoOverlap(days, rows);
    var other :| other in days && other.slot == row.slot && Collide(other, row);
    var i :| 0 <= i < |days| && days[i] == other;
    assert after[i] == other;
    assert forall j :: 0 <= j < |after| && after[j] == row ==> |days| <= j;
  }

  lemma {:induction false} AgreeingIsGuarded(days: seq<LedgerDay>, rows: seq<LedgerDay>, n: nat)
    requires OwnApart(rows) && n <= |rows| && (forall row :: row in rows ==> row !in days)
    requires Keep(days, rows, SQLite) == Greedy(days, rows)
    ensures forall k :: 0 <= k < n ==> GuardedAt(days, rows, k)
  {
    if n > 0 {
      AgreeingIsGuarded(days, rows, n - 1);
      if !GuardedAt(days, rows, n - 1) {
        UnguardedDiffers(days, rows, n - 1);
      }
    }
  }

  /** On SQLite the two agree exactly when every missing row that sits on a stored day of its own slot
      also sits on another slot's day, stored or written before it by the batch. */
  lemma SQLiteAgreesIff(plan: Plan, days: seq<LedgerDay>, first: int, last: int)
    requires InIdOrder(plan.slots)
    ensures DayByDay(days, plan, first, last, SQLite) == Batch(days, plan, first, last)
       <==> Guarded(days, RowsOver(plan, days, first, last))
  {
    var rows := RowsOver(plan, days, first, last);
    DayByDayKeeps(plan, days, first, last, SQLite);
    RowsOverApart(plan, days, first, last);
    assert rows[..|rows|] == rows;
    if Keep(days, rows, SQLite) == Greedy(days, rows) {
      AgreeingIsGuarded(days, rows, |rows|);
    }
    if Guarded(days, rows) {
      GuardedKeeps(days, rows, |rows|);
    }
  }

  /** What a caller can look up beforehand: the stored days of a slot still carry the slot's window. */
  ghost predicate DaysCarryWindow(plan: Plan, days: seq<LedgerDay>) {
    forall row, slot :: row in days && slot in plan.slots && row.slot == Some(slot.id) && row.hours.Some? ==>
      row.hours.value == Hours(slot.start, slot.end)
  }

  lemma SameRowsWhenWindowsKept(plan: Plan, days: seq<LedgerDay>, first: int, last: int, engine: Engine)
    requires InIdOrder(plan.slots) && DaysCarryWindow(plan, days)
    ensures DayByDay(days, plan, first, last, engine) == Batch(days, plan, first, last)
  {
    var dues, rows := DuesOver(plan.slots, days, first, last), RowsOver(plan, days, first, last);
    forall n | 0 <= n < |rows| ensures GuardedAt(days, rows, n) {
      assert dues[n] in dues;
      InDuesOver(plan.slots, days, first, last, dues[n]);
    }
    SQLiteAgreesIff(plan, days, first, last);
    BatchRefinesDayByDay(plan, days, first, last);
  }

  /** A slot that now runs from nine to ten every day, with a day stored while it ran from ten at night to noon. */
  function MovedPlan(): Plan {
    Plan([Slot(1, Some(7), Rule(0, (d: int) => true), 32_400_000_000, 36_000_000_000, Cycle(0, 9, true), None, false, false)], [])
  }

  const StoredNight: LedgerDay := LedgerDay(0, Some(Hours(79_200_000_000, 43_200_000_000)), Some(1), Some(7), None, Scheduled)

  /** SQLite's one-day job writes the next morning into the stored night; the batch does not. */
  lemma SQLiteCanDiffer()
    ensures InIdOrder(MovedPlan().slots) && !DaysCarryWindow(MovedPlan(), [StoredNight])
    ensures DayByDay([StoredNight], MovedPlan(), 1, 1, SQLite) == [StoredNight, RowFor([], Due(1, MovedPlan().slots[0]))]
    ensures Batch([StoredNight], MovedPlan(), 1, 1) == [StoredNight]
    ensures DayByDay([StoredNight], MovedPlan(), 1, 1, PostgreSQL) == [StoredNight]
  {
    var plan, days := MovedPlan(), [StoredNight];
    var slot := plan.slots[0];
    var row := RowFor([], Due(1, slot));
    assert StoredNight in days && Collide(StoredNight, row);
    assert slot in plan.slots;
    assert !Has(days, 1, 1) && DueOn(slot, 1);
    assert plan.slots[..0] == [];
    assert DayByDay(days, plan, 1, 0, SQLite) == days;
    assert DayJob(days, plan, [], 1, SQLite) == days;
    assert DayByDay(days, plan, 1, 1, SQLite) == [StoredNight, row];
    assert DuesOver(plan.slots, days, 1, 0) == [] && DuesOn([], days, 1) == [];
    assert DuesOver(plan.slots, days, 1, 1) == [Due(1, slot)];
    assert RowsFor([], [Due(1, slot)]) == [row];
    GreedyAllBlocked(days, [row]);
    BatchRefinesDayByDay(plan, days, 1, 1);
  }
}
