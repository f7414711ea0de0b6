/** Busy intervals and conflicts (backend/app/services/availability.py): the bounded fetches, their expansion,
    and the clash test, each proved against a reading of the tables with no bounds at all. */
module Availability {
  import opened Sequences
  import opened Time
  import opened Recurrence
  import opened Tables
  import opened Pool

  datatype Schedule = Schedule(slots: seq<Slot>, days: seq<LedgerDay>, reservations: seq<Reservation>)

  // ---------------------------------------------------------------- the three queries

  function BookedSlots(db: Schedule, resource: int): seq<Slot> {
    Filter(db.slots, (s: Slot) => s.resource == Some(resource) && Live(s))
  }

  predicate HoldsIn(h: Reservation, resource: int, first: int, last: int) {
    h.resource == resource && h.held && first - 1 <= h.window.day <= last
  }

  /** The bookings still standing on a resource, from the day before the range. */
  function HeldReservations(db: Schedule, resource: int, first: int, last: int): seq<Reservation> {
    Filter(db.reservations, (h: Reservation) => HoldsIn(h, resource, first, last))
  }

  predicate HeldOn(h: Reservation, resource: int) {
    h.resource == resource && h.held
  }

  /** Every booking still standing on a resource, whatever its date. */
  function AllHolds(db: Schedule, resource: int): seq<Reservation> {
    Filter(db.reservations, (h: Reservation) => HeldOn(h, resource))
  }

  /** The row takes up time on the resource: it is there and has hours. */
  predicate ClaimsRoom(row: LedgerDay, resource: int) {
    row.resource == Some(resource) && row.hours.Some?
  }

  function BookedDays(db: Schedule, resource: int, first: int, last: int): (rows: seq<LedgerDay>)
    ensures forall row :: row in rows ==> row.hours.Some?
  {
    Filter(db.days, (row: LedgerDay) => ClaimsRoom(row, resource) && first - 1 <= row.date <= last)
  }

  // ---------------------------------------------------------------- expansion

  /** Whether a generated day stands in for a slot on a date. */
  predicate StandsIn(days: seq<LedgerDay>, slot: int, day: int) {
    exists row :: row in days && row.date == day && row.slot == Some(slot)
  }

  function SlotEntry(slot: Slot, day: int): Entry {
    EntryOf(SlotWindow(slot, day), FromSlot(slot.id))
  }

  function DayEntry(row: LedgerDay): Entry
    requires row.hours.Some?
  {
    EntryOf(DayWindow(row), FromDay(row.slot))
  }

  function HoldEntry(held: Reservation): Entry {
    EntryOf(held.window, FromHold(held.id))
  }

  function Asked(first: int, last: int): Span {
    Span(Midnight(first), Midnight(last + 1))
  }

  predicate SlotCounts(slot: Slot, day: int, days: seq<LedgerDay>, asked: Span) {
    !StandsIn(days, slot.id, day) && Within(Some(slot.cycle), day) && Overlaps(Bounds(SlotEntry(slot, day)), asked)
  }

  function EntriesOnDates(slot: Slot, dates: seq<int>, days: seq<LedgerDay>, asked: Span): seq<Entry> {
    if dates == [] then []
    else
      var day := dates[|dates| - 1];
      var front := EntriesOnDates(slot, dates[..|dates| - 1], days, asked);
      if SlotCounts(slot, day, days, asked) then front + [SlotEntry(slot, day)] else front
  }

  function SlotEntries(slots: seq<Slot>, days: seq<LedgerDay>, first: int, last: int): seq<Entry> {
    if slots == [] then []
    else
      var slot := slots[|slots| - 1];
      SlotEntries(slots[..|slots| - 1], days, first, last)
      + EntriesOnDates(slot, Occurrences(slot.rule, first - 1, last), days, Asked(first, last))
  }

  function DayEntries(days: seq<LedgerDay>, asked: Span): seq<Entry>
    requires forall row :: row in days ==> row.hours.Some?
  {
    if days == [] then []
    else
      var row := days[|days| - 1];
      var front := DayEntries(days[..|days| - 1], asked);
      if Overlaps(Bounds(DayEntry(row)), asked) then front + [DayEntry(row)] else front
  }

  function HoldEntries(holds: seq<Reservation>, asked: Span): seq<Entry> {
    if holds == [] then []
    else
      var held := holds[|holds| - 1];
      var front := HoldEntries(holds[..|holds| - 1], asked);
      if Overlaps(Bounds(HoldEntry(held)), asked) then front + [HoldEntry(held)] else front
  }

  /** The key (date, start, end_date, end). */
  predicate EntryLe(a: Entry, b: Entry) {
    if a.date != b.date then a.date < b.date
    else if a.start != b.start then a.start < b.start
    else if a.endDate != b.endDate then a.endDate < b.endDate
    else a.end <= b.end
  }

  function OccupiedOf(slots: seq<Slot>, holds: seq<Reservation>, days: seq<LedgerDay>, first: int, last: int): seq<Entry>
    requires forall row :: row in days ==> row.hours.Some?
  {
    SortBy(SlotEntries(slots, days, first, last) + DayEntries(days, Asked(first, last))
           + HoldEntries(holds, Asked(first, last)), EntryLe)
  }

  /** occupied: the three loops over slots, days and bookings, then the sort by date, start, last date and end. */
  method Occupied(slots: seq<Slot>, holds: seq<Reservation>, days: seq<LedgerDay>, first: int, last: int)
    returns (busy: seq<Entry>)
    requires forall row :: row in days ==> row.hours.Some?
    ensures busy == OccupiedOf(slots, holds, days, first, last)
    ensures forall i, j :: 0 <= i < j < |busy| ==>
      var a, b := busy[i], busy[j];
      || a.date < b.date
      || (a.date == b.date && (a.start < b.start || (a.start == b.start && (a.endDate < b.endDate || (a.endDate == b.endDate && a.end <= b.end)))))
  {
    var asked := Asked(first, last);
    busy := [];
    for n := 0 to |slots|
      invariant busy == SlotEntries(slots[..n], days, first, last)
    {
      assert slots[..n + 1][..n] == slots[..n];
      var dates := Occurrences(slots[n].rule, first - 1, last);
      for m := 0 to |dates|
        invariant busy == SlotEntries(slots[..n], days, first, last) + EntriesOnDates(slots[n], dates[..m], days, asked)
      {
        assert dates[..m + 1][..m] == dates[..m];
        if SlotCounts(slots[n], dates[m], days, asked) {
          busy := busy + [SlotEntry(slots[n], dates[m])];
        }
      }
      assert dates[..|dates|] == dates;
    }
    assert slots[..|slots|] == slots;
    for n := 0 to |days|
      invariant busy == SlotEntries(slots, days, first, last) + DayEntries(days[..n], asked)
    {
      assert days[..n + 1][..n] == days[..n] && days[n] in days;
      if Overlaps(Bounds(DayEntry(days[n])), asked) {
        busy := busy + [DayEntry(days[n])];
      }
    }
    assert days[..|days|] == days;
    for n := 0 to |holds|
      invariant busy == SlotEntries(slots, days, first, last) + DayEntries(days, asked) + HoldEntries(holds[..n], asked)
    {
      assert holds[..n + 1][..n] == holds[..n];
      if Overlaps(Bounds(HoldEntry(holds[n])), asked) {
        busy := busy + [HoldEntry(holds[n])];
      }
    }
    assert holds[..|holds|] == holds;
    SortByKeeps(busy, EntryLe);
    busy := SortBy(busy, EntryLe);
    assert forall i, j :: 0 <= i < j < |busy| ==> EntryLe(busy[i], busy[j]);
  }

  // ---------------------------------------------------------------- what is in an expansion

  ghost predicate FromSomeSlot(slots: seq<Slot>, days: seq<LedgerDay>, e: Entry) {
    exists slot, day :: slot in slots && SlotRunsOn(slot, day) && !StandsIn(days, slot.id, day) && e == SlotEntry(slot, day)
  }

  ghost predicate FromSomeDay(days: seq<LedgerDay>, e: Entry) {
    exists row :: row in days && row.hours.Some? && e == DayEntry(row)
  }

  ghost predicate FromSomeHold(holds: seq<Reservation>, e: Entry) {
    exists h :: h in holds && e == HoldEntry(h)
  }

  lemma {:induction false} InEntriesOnDates(slot: Slot, dates: seq<int>, days: seq<LedgerDay>, asked: Span, e: Entry)
    ensures e in EntriesOnDates(slot, dates, days, asked)
       <==> exists day :: day in dates && SlotCounts(slot, day, days, asked) && e == SlotEntry(slot, day)
  {
    if dates != [] {
      InEntriesOnDates(slot, dates[..|dates| - 1], days, asked, e);
      var last := dates[|dates| - 1];
      assert forall d :: d in dates <==> d in dates[..|dates| - 1] || d == last;
    }
  }

  lemma {:induction false} InSlotEntries(slots: seq<Slot>, days: seq<LedgerDay>, first: int, last: int, e: Entry)
    ensures e in SlotEntries(slots, days, first, last)
       <==> FromSomeSlot(slots, days, e) && first - 1 <= e.date <= last && Overlaps(Bounds(e), Asked(first, last))
  {
    if slots != [] {
      var front, slot := slots[..|slots| - 1], slots[|slots| - 1];
      InSlotEntries(front, days, first, last, e);
      var dates := Occurrences(slot.rule, first - 1, last);
      InEntriesOnDates(slot, dates, days, Asked(first, last), e);
      assert forall s :: s in slots <==> s in front || s == slot;
    }
  }

  lemma {:induction false} InDayEntries(days: seq<LedgerDay>, asked: Span, e: Entry)
    requires forall row :: row in days ==> row.hours.Some?
    ensures e in DayEntries(days, asked) <==> FromSomeDay(days, e) && Overlaps(Bounds(e), asked)
  {
    if days != [] {
      InDayEntries(days[..|days| - 1], asked, e);
      assert forall r :: r in days <==> r in days[..|days| - 1] || r == days[|days| - 1];
    }
  }

  lemma {:induction false} InHoldEntries(holds: seq<Reservation>, asked: Span, e: Entry)
    ensures e in HoldEntries(holds, asked) <==> FromSomeHold(holds, e) && Overlaps(Bounds(e), asked)
  {
    if holds != [] {
      InHoldEntries(holds[..|holds| - 1], asked, e);
      assert forall h :: h in holds <==> h in holds[..|holds| - 1] || h == holds[|holds| - 1];
    }
  }

  lemma InOccupied(slots: seq<Slot>, holds: seq<Reservation>, days: seq<LedgerDay>, first: int, last: int, e: Entry)
    requires forall row :: row in days ==> row.hours.Some?
    ensures e in OccupiedOf(slots, holds, days, first, last)
       <==> && Overlaps(Bounds(e), Asked(first, last))
            && (|| (FromSomeSlot(slots, days, e) && first - 1 <= e.date <= last)
                || FromSomeDay(days, e)
                || FromSomeHold(holds, e))
  {
    var a, b, c := SlotEntries(slots, days, first, last), DayEntries(days, Asked(first, last)), HoldEntries(holds, Asked(first, last));
    SortByKeeps(a + b + c, EntryLe);
    InSlotEntries(slots, days, first, last, e);
    InDayEntries(days, Asked(first, last), e);
    InHoldEntries(holds, Asked(first, last), e);
  }

  // ---------------------------------------------------------------- conflicts with a window

  function Clashing(busy: seq<Entry>, w: Window): seq<Entry> {
    Filter(busy, (e: Entry) => Overlaps(Bounds(e), WindowSpan(w)))
  }

  /** The clash list as it is computed, out of fetches that stop at the dates of w. WindowConflictsExact says
      nothing is missed. */
  function WindowConflicts(db: Schedule, resource: int, w: Window, holds: bool): seq<Entry> {
    Clashing(OccupiedOf(BookedSlots(db, resource),
                        if holds then HeldReservations(db, resource, w.day, LastDate(w)) else [],
                        BookedDays(db, resource, w.day, LastDate(w)),
                        w.day, LastDate(w)),
             w)
  }

  /** Everything that occupies a resource on any date at all, with no range and no fetch. */
  ghost predicate Timetabled(db: Schedule, resource: int, e: Entry) {
    || (exists slot, day :: && slot in db.slots && slot.resource == Some(resource) && Live(slot)
                            && SlotRunsOn(slot, day) && !Replaced(db, resource, slot.id, day)
                            && e == SlotEntry(slot, day))
    || (exists row :: row in db.days && ClaimsRoom(row, resource) && e == DayEntry(row))
  }

  /** A generated day on this room, with a window, took the slot's place on that date. */
  ghost predicate Replaced(db: Schedule, resource: int, slot: int, day: int) {
    exists row :: row in db.days && ClaimsRoom(row, resource) && row.date == day && row.slot == Some(slot)
  }

  ghost predicate Occupies(db: Schedule, resource: int, holds: bool, e: Entry) {
    || Timetabled(db, resource, e)
    || (holds && exists h :: h in db.reservations && HeldOn(h, resource) && e == HoldEntry(h))
  }

  /** Bounded fetches lose nothing and add nothing. */
  lemma WindowConflictsExact(db: Schedule, resource: int, w: Window, holds: bool, e: Entry)
    ensures e in WindowConflicts(db, resource, w, holds)
       <==> Occupies(db, resource, holds, e) && Overlaps(Bounds(e), WindowSpan(w))
  {
    var slots := BookedSlots(db, resource);
    var held := if holds then HeldReservations(db, resource, w.day, LastDate(w)) else [];
    var days := BookedDays(db, resource, w.day, LastDate(w));
    InOccupied(slots, held, days, w.day, LastDate(w), e);
    if Overlaps(Bounds(e), WindowSpan(w)) {
      if Occupies(db, resource, holds, e) {
        ConflictFound(db, resource, w, holds, e);
      }
      if FromSomeSlot(slots, days, e) && w.day - 1 <= e.date <= LastDate(w) {
        var slot, day :| slot in slots && SlotRunsOn(slot, day) && !StandsIn(days, slot.id, day) && e == SlotEntry(slot, day);
      }
    }
  }

  lemma ConflictFound(db: Schedule, resource: int, w: Window, holds: bool, e: Entry)
    requires Occupies(db, resource, holds, e) && Overlaps(Bounds(e), WindowSpan(w))
    ensures Overlaps(Bounds(e), Asked(w.day, LastDate(w)))
    ensures || (FromSomeSlot(BookedSlots(db, resource), BookedDays(db, resource, w.day, LastDate(w)), e)
                && w.day - 1 <= e.date <= LastDate(w))
            || FromSomeDay(BookedDays(db, resource, w.day, LastDate(w)), e)
            || (holds && FromSomeHold(HeldReservations(db, resource, w.day, LastDate(w)), e))
  {
    var days := BookedDays(db, resource, w.day, LastDate(w));
    if slot, day :| && slot in db.slots && slot.resource == Some(resource) && Live(slot)
                    && SlotRunsOn(slot, day) && !Replaced(db, resource, slot.id, day) && e == SlotEntry(slot, day) {
      assert slot in BookedSlots(db, resource);
      assert !StandsIn(days, slot.id, day);
    } else if row :| row in db.days && ClaimsRoom(row, resource) && e == DayEntry(row) {
      assert row in days;
    } else {
      var h :| h in db.reservations && HeldOn(h, resource) && e == HoldEntry(h);
      assert h in HeldReservations(db, resource, w.day, LastDate(w));
    }
  }

  // ---------------------------------------------------------------- pooled state

  /** The bookings whose quantities count against a new one over w. */
  function PoolHolds(db: Schedule, resource: int, w: Window): seq<Reservation> {
    Filter(HeldReservations(db, resource, w.day, LastDate(w)),
           (h: Reservation) => Overlaps(WindowSpan(h.window), WindowSpan(w)))
  }

  /** The number a request is measured against: their peak, clipped to w. */
  function PoolTaken(db: Schedule, resource: int, w: Window): int {
    PeakOf(Clipped(PoolHolds(db, resource, w), Some(WindowSpan(w))))
  }

  /** Rows that do not cover an instant do not matter to the sum there. */
  lemma {:induction false} CoveringOfFilters(s: seq<Reservation>, p: Reservation -> bool, q: Reservation -> bool, t: int)
    requires forall h :: h in s && Covers(WindowSpan(h.window), t) ==> p(h) == q(h)
    ensures Covering(LoadsOf(Filter(s, p)), t) == Covering(LoadsOf(Filter(s, q)), t)
  {
    if s != [] {
      var front, last := s[..|s| - 1], s[|s| - 1];
      assert last in s && forall h :: h in front ==> h in s;
      CoveringOfFilters(front, p, q, t);
      CoveringOneMore(Filter(front, p), last, t);
      CoveringOneMore(Filter(front, q), last, t);
    }
  }

  /** The bounded pool fetch counts every hold of the resource, at every instant of the window. */
  lemma PoolHoldsExact(db: Schedule, resource: int, w: Window, t: int)
    requires Covers(WindowSpan(w), t)
    ensures Covering(LoadsOf(PoolHolds(db, resource, w)), t) == Covering(LoadsOf(AllHolds(db, resource)), t)
  {
    var last := LastDate(w);
    var p := (h: Reservation) => HoldsIn(h, resource, w.day, last);
    var q := (h: Reservation) => Overlaps(WindowSpan(h.window), WindowSpan(w));
    var all := (h: Reservation) => HeldOn(h, resource);
    forall h | h in db.reservations && Covers(WindowSpan(h.window), t) ensures p(h) == all(h) && q(h) {
      OverlapMeansNear(h.window, w);
    }
    CoveringOfFilters(db.reservations, p, all, t);
    var fetched := Filter(db.reservations, p);
    CoveringOfFilters(fetched, q, (h: Reservation) => true, t);
    FilterAll(fetched, (h: Reservation) => true);
  }

  /** taken is the exact maximum, over the instants of the window, of everything held on the pool. */
  lemma PoolTakenExact(db: Schedule, resource: int, w: Window) returns (t: int)
    requires Quantities(db.reservations) && Proper(w)
    ensures Covers(WindowSpan(w), t)
    ensures Covering(LoadsOf(AllHolds(db, resource)), t) == PoolTaken(db, resource, w)
    ensures forall t' :: Covers(WindowSpan(w), t') ==> Covering(LoadsOf(AllHolds(db, resource)), t') <= PoolTaken(db, resource, w)
  {
    SpanLength(w);
    var holds := PoolHolds(db, resource, w);
    t := PeakReachedWithin(holds, WindowSpan(w));
    PoolHoldsExact(db, resource, w, t);
    forall t' | Covers(WindowSpan(w), t') ensures Covering(LoadsOf(AllHolds(db, resource)), t') <= PoolTaken(db, resource, w) {
      PoolHoldsExact(db, resource, w, t');
    }
  }

  /** GET availability on a pooled resource: the range is reported full exactly where the bookings
      of every date add up to the capacity, though only its dates and the day before are fetched. */
  method PoolFullOver(db: Schedule, resource: int, capacity: int, first: int, last: int) returns (busy: seq<Entry>)
    requires Quantities(db.reservations)
    ensures Separated(BoundsOf(busy))
    ensures forall t :: Midnight(first) <= t < Midnight(last + 1) ==>
              (InSome(BoundsOf(busy), t) <==> 1 <= capacity <= Covering(LoadsOf(AllHolds(db, resource)), t))
  {
    var p := (h: Reservation) => HoldsIn(h, resource, first, last);
    busy := FullIntervals(HeldReservations(db, resource, first, last), capacity, first, last);
    forall t | Midnight(first) <= t < Midnight(last + 1)
      ensures Covering(LoadsOf(HeldReservations(db, resource, first, last)), t) == Covering(LoadsOf(AllHolds(db, resource)), t)
    {
      forall h | h in db.reservations && Covers(WindowSpan(h.window), t) ensures p(h) == HeldOn(h, resource) {
        ReachMeansDated(h.window, first, last);
      }
      CoveringOfFilters(db.reservations, p, (h: Reservation) => HeldOn(h, resource), t);
    }
  }
}
