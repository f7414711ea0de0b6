/** Checks of a recurring rule against what is already there
    (backend/app/services/availability.py: held_against_slot, slots_against_slot, _first_meeting,
    days_against_slot, days_against_window). Each looks at a bounded set of dates; each is proved to
    answer as a search over every date would. */
module RuleChecks {
  import opened Sequences
  import opened Time
  import opened Recurrence
  import opened Tables
  import opened Availability

  /** A rule with its window and its own cycle, as it is about to be saved. */
  datatype Proposed = Proposed(rule: Rule, start: TimeOfDay, end: TimeOfDay, cycle: Option<Cycle>)

  predicate ProposedOn(p: Proposed, day: int) {
    RunsOn(p.rule, day) && Within(p.cycle, day)
  }

  function ProposedSpan(p: Proposed, day: int): Span {
    WindowSpan(Window(day, p.start, p.end))
  }

  /** Some date of the rule, anywhere on the calendar, overlaps a span. */
  ghost predicate SitsOn(p: Proposed, taken: Span) {
    exists day :: ProposedOn(p, day) && Overlaps(ProposedSpan(p, day), taken)
  }

  /** The three dates around a window decide. */
  method TriedAround(p: Proposed, w: Window) returns (hit: bool)
    ensures hit <==> SitsOn(p, WindowSpan(w))
  {
    hit := false;
    var offset := -1;
    while offset <= 1
      invariant -1 <= offset <= 2
      invariant hit <==> exists day :: w.day - 1 <= day < w.day + offset && ProposedOn(p, day)
                                    && Overlaps(ProposedSpan(p, day), WindowSpan(w))
      decreases 2 - offset
    {
      var day := w.day + offset;
      OccursOnIsRunsOn(p.rule, day);
      if !hit && Within(p.cycle, day) && OccursOn(p.rule, day) && Overlaps(ProposedSpan(p, day), WindowSpan(w)) {
        hit := true;
      }
      offset := offset + 1;
    }
    if SitsOn(p, WindowSpan(w)) {
      var day :| ProposedOn(p, day) && Overlaps(ProposedSpan(p, day), WindowSpan(w));
      OverlapMeansNear(Window(day, p.start, p.end), w);
    }
  }

  predicate StandingFrom(h: Reservation, resource: int, today: int) {
    HeldOn(h, resource) && h.mode != Shared && today <= h.window.day
  }

  /** Filters the standing bookings by SitsOn, which ranges over all dates of the proposal. */
  method HeldAgainstSlot(db: Schedule, resource: int, p: Proposed, today: int) returns (clashes: seq<Reservation>)
    ensures clashes == Filter(db.reservations,
              (h: Reservation) => StandingFrom(h, resource, today) && SitsOn(p, WindowSpan(h.window)))
  {
    ghost var wanted := (h: Reservation) => StandingFrom(h, resource, today) && SitsOn(p, WindowSpan(h.window));
    clashes := [];
    for n := 0 to |db.reservations|
      invariant clashes == Filter(db.reservations[..n], wanted)
    {
      assert db.reservations[..n + 1][..n] == db.reservations[..n];
      var held := db.reservations[n];
      if StandingFrom(held, resource, today) {
        var hit := TriedAround(p, held.window);
        if hit {
          clashes := clashes + [held];
        }
      }
    }
    assert db.reservations[..|db.reservations|] == db.reservations;
  }

  predicate DayFrom(row: LedgerDay, resource: int, since: int, excluded: Option<int>) {
    ClaimsRoom(row, resource) && since <= row.date && (excluded.None? || row.slot != excluded)
  }

  /** The generated days such a slot would sit on, whatever their cycle. */
  method DaysAgainstSlot(db: Schedule, resource: int, p: Proposed, excluded: Option<int>, today: int)
    returns (clashes: seq<LedgerDay>)
    ensures clashes == Filter(db.days,
              (row: LedgerDay) => DayFrom(row, resource, today, excluded) && SitsOn(p, WindowSpan(DayWindow(row))))
  {
    ghost var wanted :=
      (row: LedgerDay) => DayFrom(row, resource, today, excluded) && SitsOn(p, WindowSpan(DayWindow(row)));
    clashes := [];
    for n := 0 to |db.days|
      invariant clashes == Filter(db.days[..n], wanted)
    {
      assert db.days[..n + 1][..n] == db.days[..n];
      var row := db.days[n];
      if DayFrom(row, resource, today, excluded) {
        var hit := TriedAround(p, DayWindow(row));
        if hit {
          clashes := clashes + [row];
        }
      }
    }
    assert db.days[..|db.days|] == db.days;
  }

  /** A generated day of another slot on this room, whatever its date, in the way of a window. */
  predicate InTheWay(row: LedgerDay, resource: int, w: Window, excluded: Option<int>) {
    && ClaimsRoom(row, resource) && (excluded.None? || row.slot != excluded)
    && Overlaps(WindowSpan(DayWindow(row)), WindowSpan(w))
  }

  /** days_against_window, which looks at the day before, the day and the day after only. */
  method DaysAgainstWindow(days: seq<LedgerDay>, resource: int, w: Window, excluded: Option<int>)
    returns (clashes: seq<LedgerDay>)
    ensures clashes == Filter(days, (row: LedgerDay) => InTheWay(row, resource, w, excluded))
  {
    clashes := [];
    for n := 0 to |days|
      invariant clashes == Filter(days[..n], (row: LedgerDay) => InTheWay(row, resource, w, excluded))
    {
      assert days[..n + 1][..n] == days[..n];
      var row := days[n];
      if InTheWay(row, resource, w, excluded) {
        OverlapMeansNear(DayWindow(row), w);
      }
      if DayFrom(row, resource, w.day - 1, excluded) && row.date <= w.day + 1
         && Overlaps(WindowSpan(DayWindow(row)), WindowSpan(w)) {
        clashes := clashes + [row];
      }
    }
    assert days[..|days|] == days;
  }

  // ---------------------------------------------------------------- two rules

  predicate Meets(p: Proposed, ours: int, slot: Slot, theirs: int) {
    Overlaps(ProposedSpan(p, ours), WindowSpan(SlotWindow(slot, theirs)))
  }

  /** One of their dates, out of a set, that some date of ours sits on. */
  ghost predicate Met(p: Proposed, ours: seq<int>, slot: Slot, theirs: seq<int>, date: int) {
    date in theirs && exists day :: day in ours && Meets(p, day, slot, date)
  }

  /** Two windows under a day long cannot cross: if our date meets the day after on their side, the
      day after on our side does not meet theirs on that date. */
  lemma NoCrossing(p: Proposed, slot: Slot, day: int)
    ensures !(Meets(p, day, slot, day + 1) && Meets(p, day + 1, slot, day))
  {
    SpanLength(Window(day, p.start, p.end));
    SpanLength(SlotWindow(slot, day));
  }

  /** Searches two date lists for a meeting. The outer loop ends at the first hit in ours; that its date is
      also the least in theirs is NoCrossing. */
  method FirstMeeting(p: Proposed, ours: seq<int>, slot: Slot, theirs: seq<int>) returns (met: Option<int>)
    requires forall i, j :: 0 <= i < j < |ours| ==> ours[i] < ours[j]
    ensures met.None? ==> forall date :: !Met(p, ours, slot, theirs, date)
    ensures met.Some? ==> Met(p, ours, slot, theirs, met.value)
    ensures met.Some? ==> forall date :: Met(p, ours, slot, theirs, date) ==> met.value <= date
  {
    for n := 0 to |ours|
      invariant forall i, date :: 0 <= i < n && date in theirs ==> !Meets(p, ours[i], slot, date)
    {
      var day := ours[n];
      var offset := -1;
      while offset <= 1
        invariant -1 <= offset <= 2
        invariant forall date :: date in theirs && date < day + offset ==> !Meets(p, day, slot, date)
        decreases 2 - offset
      {
        var theirDay := day + offset;
        if theirDay in theirs && Meets(p, day, slot, theirDay) {
          EarliestMeeting(p, ours, slot, theirs, n, theirDay);
          return Some(theirDay);
        }
        forall date | date in theirs && date < day + offset + 1 ensures !Meets(p, day, slot, date) {
          if Meets(p, day, slot, date) {
            OverlapMeansNear(Window(day, p.start, p.end), SlotWindow(slot, date));
          }
        }
        offset := offset + 1;
      }
      forall date | date in theirs ensures !Meets(p, day, slot, date) {
        if Meets(p, day, slot, date) {
          OverlapMeansNear(Window(day, p.start, p.end), SlotWindow(slot, date));
        }
      }
    }
    met := None;
  }

  lemma EarliestMeeting(p: Proposed, ours: seq<int>, slot: Slot, theirs: seq<int>, n: nat, found: int)
    requires forall i, j :: 0 <= i < j < |ours| ==> ours[i] < ours[j]
    requires n < |ours| && found in theirs && Meets(p, ours[n], slot, found)
    requires forall i, date :: 0 <= i < n && date in theirs ==> !Meets(p, ours[i], slot, date)
    requires forall date :: date in theirs && date < found ==> !Meets(p, ours[n], slot, date)
    ensures Met(p, ours, slot, theirs, found)
    ensures forall date :: Met(p, ours, slot, theirs, date) ==> found <= date
  {
    assert ours[n] in ours;
    OverlapMeansNear(Window(ours[n], p.start, p.end), SlotWindow(slot, found));
    forall date | Met(p, ours, slot, theirs, date) ensures found <= date {
      var day :| day in ours && Meets(p, day, slot, date);
      OverlapMeansNear(Window(day, p.start, p.end), SlotWindow(slot, date));
      NoCrossing(p, slot, ours[n]);
    }
  }

  /** Two rules meet on their own calendars: a date of the new one from tomorrow inside its cycle,
      and a date of the other inside its cycle, whose windows overlap. */
  ghost predicate RulesMeetAt(p: Proposed, tomorrow: int, slot: Slot, ours: int, theirs: int) {
    tomorrow <= ours && ProposedOn(p, ours) && SlotRunsOn(slot, theirs) && Meets(p, ours, slot, theirs)
  }

  /** A date of the other slot, on the whole calendar, that the new rule sits on. */
  ghost predicate SatOn(p: Proposed, tomorrow: int, slot: Slot, date: int) {
    exists ours :: RulesMeetAt(p, tomorrow, slot, ours, date)
  }

  ghost predicate RulesMeet(p: Proposed, tomorrow: int, slot: Slot) {
    exists date :: SatOn(p, tomorrow, slot, date)
  }

  /** The date is theirs, is sat on, and no earlier date of theirs is. */
  ghost predicate EarliestSatOn(p: Proposed, tomorrow: int, slot: Slot, date: int) {
    SatOn(p, tomorrow, slot, date) && forall other :: SatOn(p, tomorrow, slot, other) ==> date <= other
  }

  function Max(a: int, b: int): int { if a < b then b else a }
  function Min(a: int, b: int): int { if a < b then a else b }

  /** The bounds between which p is expanded against one slot. MeetingInBounds says they lose no meeting. */
  function OursFrom(p: Proposed, tomorrow: int, slot: Slot): int {
    var first := Max(tomorrow, slot.cycle.first - 1);
    if p.cycle.Some? then Max(first, p.cycle.value.first) else first
  }

  function OursTo(p: Proposed, slot: Slot): int {
    var last := slot.cycle.last + 1;
    if p.cycle.Some? then Min(last, p.cycle.value.last) else last
  }

  /** Clipping both expansions loses no meeting. */
  lemma MeetingInBounds(p: Proposed, tomorrow: int, slot: Slot, ours: int, theirs: int)
    requires RulesMeetAt(p, tomorrow, slot, ours, theirs)
    ensures OursFrom(p, tomorrow, slot) <= ours <= OursTo(p, slot)
    ensures Max(OursFrom(p, tomorrow, slot) - 1, slot.cycle.first) <= theirs <= Min(OursTo(p, slot) + 1, slot.cycle.last)
  {
    OverlapMeansNear(Window(ours, p.start, p.end), SlotWindow(slot, theirs));
  }

  /** The dates a rule produces in a range, told apart from how they are listed. */
  ghost predicate DatesOf(rule: Rule, first: int, last: int, dates: seq<int>) {
    && (forall d :: d in dates <==> first <= d <= last && RunsOn(rule, d))
    && (forall i, j :: 0 <= i < j < |dates| ==> dates[i] < dates[j])
  }

  method Expand(rule: Rule, first: int, last: int) returns (dates: seq<int>)
    ensures DatesOf(rule, first, last, dates)
  {
    dates := Occurrences(rule, first, last);
  }

  /** Over the clipped dates, the same of their dates are sat on as over the whole calendar. */
  lemma MetIsMeeting(p: Proposed, tomorrow: int, slot: Slot, ours: seq<int>, theirs: seq<int>, date: int)
    requires DatesOf(p.rule, OursFrom(p, tomorrow, slot), OursTo(p, slot), ours)
    requires DatesOf(slot.rule, Max(OursFrom(p, tomorrow, slot) - 1, slot.cycle.first),
                     Min(OursTo(p, slot) + 1, slot.cycle.last), theirs)
    ensures Met(p, ours, slot, theirs, date) <==> SatOn(p, tomorrow, slot, date)
  {
    if day :| RulesMeetAt(p, tomorrow, slot, day, date) {
      MeetingInBounds(p, tomorrow, slot, day, date);
      assert day in ours && date in theirs;
    }
    if Met(p, ours, slot, theirs, date) {
      var day :| day in ours && Meets(p, day, slot, date);
      assert RulesMeetAt(p, tomorrow, slot, day, date);
    }
  }

  /** The bounded expansion of both rules against one slot. */
  method MeetingWith(p: Proposed, tomorrow: int, slot: Slot) returns (met: Option<int>)
    ensures met.Some? <==> RulesMeet(p, tomorrow, slot)
    ensures met.Some? ==> EarliestSatOn(p, tomorrow, slot, met.value)
  {
    var first, last := OursFrom(p, tomorrow, slot), OursTo(p, slot);
    var theirs := Expand(slot.rule, Max(first - 1, slot.cycle.first), Min(last + 1, slot.cycle.last));
    var ours := Expand(p.rule, first, last);
    forall date ensures Met(p, ours, slot, theirs, date) <==> SatOn(p, tomorrow, slot, date) {
      MetIsMeeting(p, tomorrow, slot, ours, theirs, date);
    }
    if first > last || theirs == [] {
      return None;
    }
    met := FirstMeeting(p, ours, slot, theirs);
  }

  datatype Clash = Clash(slot: Slot, date: int)

  function SlotsOf(clashes: seq<Clash>): seq<Slot> {
    seq(|clashes|, i requires 0 <= i < |clashes| => clashes[i].slot)
  }

  /** slots_against_slot names exactly the booked slots the new rule meets, each once, each with the
      earliest of its dates that is sat on. */
  method SlotsAgainstSlot(db: Schedule, resource: int, p: Proposed, excluded: Option<int>, today: int)
    returns (clashes: seq<Clash>)
    ensures SlotsOf(clashes) == Filter(BookedSlots(db, resource),
              (s: Slot) => Some(s.id) != excluded && RulesMeet(p, today + 1, s))
    ensures forall c :: c in clashes ==> EarliestSatOn(p, today + 1, c.slot, c.date)
  {
    ghost var wanted := (s: Slot) => Some(s.id) != excluded && RulesMeet(p, today + 1, s);
    var booked := BookedSlots(db, resource);
    clashes := [];
    for n := 0 to |booked|
      invariant SlotsOf(clashes) == Filter(booked[..n], wanted)
      invariant forall c :: c in clashes ==> EarliestSatOn(p, today + 1, c.slot, c.date)
    {
      assert booked[..n + 1][..n] == booked[..n];
      var slot := booked[n];
      assert slot in booked;
      if Some(slot.id) != excluded {
        var met := MeetingWith(p, today + 1, slot);
        if met.Some? {
          ghost var before := clashes;
          clashes := clashes + [Clash(slot, met.value)];
          assert SlotsOf(clashes) == SlotsOf(before) + [slot];
        }
      }
    }
    assert booked[..|booked|] == booked;
  }
}
