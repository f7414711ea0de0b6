/** The rows the scheduling services read (backend/app/models/db.py), cut down to the columns
    that decide what holds a resource. */
module Tables {
  import opened Sequences
  import opened Time
  import opened Recurrence

  datatype Mode = Exclusive | Pooled | Shared

  datatype Resource = Resource(id: int, kind: string, mode: Mode, capacity: int, active: bool)

  /** A planning cycle: its own dates, both ends included, and whether it is open. */
  datatype Cycle = Cycle(first: int, last: int, open: bool)

  /** A weekly slot with its activity's cycle. */
  datatype Slot = Slot(id: int, resource: Option<int>, rule: Rule, start: TimeOfDay, end: TimeOfDay,
                       cycle: Cycle, lead: Option<int>, retired: bool, activityRetired: bool)

  datatype Hours = Hours(start: TimeOfDay, end: TimeOfDay)

  datatype DayState = Scheduled | OnLeave | ProxySubstitute | Lunch | InternalMeeting | AdhocEvent

  /** A dated row of the ledger; hours is None where it takes up no time. */
  datatype LedgerDay = LedgerDay(date: int, hours: Option<Hours>, slot: Option<int>,
                                 resource: Option<int>, lead: Option<int>, state: DayState)

  datatype Reservation = Reservation(id: int, resource: int, window: Window, quantity: int,
                                     mode: Mode, held: bool)

  predicate Within(cycle: Option<Cycle>, day: int) {
    cycle.None? || cycle.value.first <= day <= cycle.value.last
  }

  /** The filter every query over slots shares. */
  predicate Live(slot: Slot) {
    slot.cycle.open && !slot.retired && !slot.activityRetired
  }

  predicate SlotRunsOn(slot: Slot, day: int) {
    RunsOn(slot.rule, day) && Within(Some(slot.cycle), day)
  }

  function SlotWindow(slot: Slot, day: int): Window {
    Window(day, slot.start, slot.end)
  }

  function DayWindow(row: LedgerDay): Window
    requires row.hours.Some?
  {
    Window(row.date, row.hours.value.start, row.hours.value.end)
  }

  /** What a busy interval came from. A full pool names no single row. */
  datatype Source = FromSlot(slot: int) | FromDay(origin: Option<int>) | FromHold(reservation: int) | FullPool

  /** A busy interval, in the shape every caller reads: the end carries its own date. */
  datatype Entry = Entry(date: int, start: TimeOfDay, endDate: int, end: TimeOfDay, source: Source)

  function Bounds(e: Entry): Span {
    Span(At(e.date, e.start), At(e.endDate, e.end))
  }

  function EntryOf(w: Window, source: Source): (e: Entry)
    ensures Bounds(e) == WindowSpan(w)
  {
    Entry(w.day, w.start, LastDate(w), w.end, source)
  }
}
