/** Where people are right now (backend/app/services/location_resolver.py): one batched pass over
    four tiers, proved to answer for each person as if they had been asked about alone. */
module Locator {
  import opened Sequences
  import opened Time
  import opened Recurrence
  import opened Tables
  import opened Availability
  import opened RuleChecks
  import opened Ledger

  datatype Person = Person(id: int, station: Option<string>)

  /** A generated day with who covers it, its room and its activity. */
  datatype DayRow = DayRow(day: LedgerDay, cover: Option<int>, room: string, activity: int)

  datatype SlotRow = SlotRow(slot: Slot, room: string, code: string)

  /** The tables, with the days in the order (date, start) they are read in. */
  datatype Board = Board(overrides: map<int, string>, days: seq<DayRow>, slots: seq<SlotRow>, leaves: seq<Leave>,
                           codes: map<int, string>)

  datatype Whereabouts =
    | Overridden(status: string)
    | Substituting(room: string)
    | OnApprovedLeave
    | Leading(code: string, room: string)
    | AtBase(station: string)

  /** A window opened on a date is running at an instant. */
  predicate Running(w: Window, instant: int) {
    Covers(WindowSpan(w), instant)
  }

  // ---------------------------------------------------------------- one person alone

  /** The first in a list that has anything to say. */
  function FirstOf<T>(s: seq<T>, says: T -> Option<Whereabouts>): Option<Whereabouts> {
    if s == [] then None
    else
      var earlier := FirstOf(s[..|s| - 1], says);
      if earlier.Some? then earlier else says(s[|s| - 1])
  }

  lemma {:induction false} FirstOfFilter<T(!new)>(s: seq<T>, q: T -> bool, says: T -> Option<Whereabouts>)
    requires forall x :: x in s && !q(x) ==> says(x).None?
    ensures FirstOf(Filter(s, q), says) == FirstOf(s, says)
  {
    if s != [] {
      assert s[|s| - 1] in s;
      FirstOfFilter(s[..|s| - 1], q, says);
    }
  }

  predicate Recent(row: DayRow, today: int, instant: int) {
    && today - 1 <= row.day.date <= today && row.day.hours.Some?
    && Running(DayWindow(row.day), instant)
  }

  /** The row's state lets its substitute be placed by it. */
  predicate Coverable(state: DayState) {
    state.Scheduled? || state.ProxySubstitute? || state.OnLeave?
  }

  function CodeOf(t: Board, activity: int): string {
    if activity in t.codes then t.codes[activity] else "a session"
  }

  /** What a running day says about a person: as its cover first, then as its lead. */
  function DaySays(t: Board, id: int, row: DayRow): Option<Whereabouts> {
    if row.cover == Some(id) && Coverable(row.day.state) then Some(Substituting(row.room))
    else if row.day.lead != Some(id) then None
    else if row.day.state.OnLeave? then Some(OnApprovedLeave)
    else if row.day.state.Scheduled? && row.cover.None? then Some(Leading(CodeOf(t, row.activity), row.room))
    else None
  }

  datatype Candidate = Candidate(day: int, row: SlotRow)

  /** The dates of the two that a slot would have been written on. */
  function DatesOn(row: SlotRow, today: int): seq<int> {
    if !Live(row.slot) || today < row.slot.cycle.first || row.slot.cycle.last < today - 1 then []
    else Occurrences(row.slot.rule, Max(today - 1, row.slot.cycle.first), Min(today, row.slot.cycle.last))
  }

  function CandidatesOf(row: SlotRow, dates: seq<int>): seq<Candidate> {
    seq(|dates|, i requires 0 <= i < |dates| => Candidate(dates[i], row))
  }

  function CandidatesFrom(rows: seq<SlotRow>, today: int): seq<Candidate> {
    if rows == [] then []
    else CandidatesFrom(rows[..|rows| - 1], today) + CandidatesOf(rows[|rows| - 1], DatesOn(rows[|rows| - 1], today))
  }

  /** The sort key (day, start). Equal keys keep the order they came in. */
  predicate CandidateLe(a: Candidate, b: Candidate) {
    if a.day != b.day then a.day < b.day else a.row.slot.start <= b.row.slot.start
  }

  predicate Generated(t: Board, slot: int, day: int) {
    exists row :: row in t.days && row.day.slot == Some(slot) && row.day.date == day
  }

  /** What a slot's date says about its lead, where no row has been written for it. */
  function SlotSays(t: Board, id: int, instant: int, c: Candidate): Option<Whereabouts> {
    if Generated(t, c.row.slot.id, c.day) || c.row.slot.lead != Some(id)
       || !Running(Window(c.day, c.row.slot.start, c.row.slot.end), instant) then None
    else if Away(t.leaves, Some(id), c.day) then Some(OnApprovedLeave)
    else Some(Leading(c.row.code, c.row.room))
  }

  function DayTier(t: Board, id: int, today: int, instant: int): Option<Whereabouts> {
    FirstOf(Filter(t.days, (r: DayRow) => Recent(r, today, instant)), (r: DayRow) => DaySays(t, id, r))
  }

  function SlotTier(t: Board, id: int, today: int, instant: int): Option<Whereabouts> {
    FirstOf(SortBy(Filter(CandidatesFrom(t.slots, today), (c: Candidate) => c.row.slot.lead == Some(id)), CandidateLe),
            (c: Candidate) => SlotSays(t, id, instant, c))
  }

  /** The answer for one person, tier by tier, with nobody else in sight. */
  function Answer(t: Board, p: Person, today: int, instant: int): Whereabouts {
    if p.id in t.overrides && t.overrides[p.id] != "" then Overridden(t.overrides[p.id])
    else if DayTier(t, p.id, today, instant).Some? then DayTier(t, p.id, today, instant).value
    else if SlotTier(t, p.id, today, instant).Some? then SlotTier(t, p.id, today, instant).value
    else if Away(t.leaves, Some(p.id), today) then OnApprovedLeave
    else BaseOf(p)
  }

  // ---------------------------------------------------------------- what the answer is

  /** From its start, until just before its end, which is on the next date where it reads earlier than the start. */
  predicate OnBetween(day: int, start: TimeOfDay, end: TimeOfDay, instant: int) {
    At(day, start) <= instant < At(if end < start then day + 1 else day, end)
  }

  predicate OnNow(row: DayRow, today: int, instant: int) {
    && (row.day.date == today || row.day.date == today - 1) && row.day.hours.Some?
    && OnBetween(row.day.date, row.day.hours.value.start, row.day.hours.value.end, instant)
  }

  predicate CoveredBy(row: DayRow, id: int) {
    row.cover == Some(id) && (row.day.state == Scheduled || row.day.state == ProxySubstitute || row.day.state == OnLeave)
  }

  /** The row says where the person is: they cover it, or it is still theirs to run or to be away from. */
  predicate Places(row: DayRow, id: int, today: int, instant: int) {
    && OnNow(row, today, instant)
    && (CoveredBy(row, id) || (row.day.lead == Some(id) && (row.day.state == OnLeave || (row.day.state == Scheduled && row.cover == None))))
  }

  ghost predicate AnyDay(t: Board, id: int, today: int, instant: int) {
    exists k :: 0 <= k < |t.days| && Places(t.days[k], id, today, instant)
  }

  /** The first such row of the board. */
  ghost predicate FirstDay(t: Board, id: int, today: int, instant: int, n: int) {
    && 0 <= n < |t.days| && Places(t.days[n], id, today, instant)
    && forall k :: 0 <= k < n ==> !Places(t.days[k], id, today, instant)
  }

  ghost predicate DayTold(t: Board, id: int, today: int, instant: int, said: Whereabouts) {
    exists n :: FirstDay(t, id, today, instant, n) &&
      var row := t.days[n];
      if CoveredBy(row, id) then said == Substituting(row.room)
      else if row.day.state == OnLeave then said == OnApprovedLeave
      else said == Leading(if row.activity in t.codes then t.codes[row.activity] else "a session", row.room)
  }

  /** The n-th slot is led by the person, takes place on the date, is on, and has no row there. */
  predicate Leads(t: Board, id: int, today: int, instant: int, n: int, day: int) {
    && 0 <= n < |t.slots| && today - 1 <= day <= today
    && t.slots[n].slot.lead == Some(id) && TakesPlace(t.slots[n].slot, day)
    && OnBetween(day, t.slots[n].slot.start, t.slots[n].slot.end, instant)
    && !exists k :: 0 <= k < |t.days| && t.days[k].day.slot == Some(t.slots[n].slot.id) && t.days[k].day.date == day
  }

  ghost predicate AnySlot(t: Board, id: int, today: int, instant: int) {
    exists n, day :: Leads(t, id, today, instant, n, day)
  }

  /** Yesterday's before today's, the earlier start first, and of two alike the one read first. */
  predicate Earlier(t: Board, m: int, d: int, n: int, day: int)
    requires 0 <= m < |t.slots| && 0 <= n < |t.slots|
  {
    var a, b := t.slots[m].slot.start, t.slots[n].slot.start;
    d < day || (d == day && (a < b || (a == b && m < n)))
  }

  ghost predicate FirstSlot(t: Board, id: int, today: int, instant: int, n: int, day: int) {
    && Leads(t, id, today, instant, n, day)
    && forall m, d :: Leads(t, id, today, instant, m, d) ==> !Earlier(t, m, d, n, day)
  }

  ghost predicate SlotTold(t: Board, id: int, today: int, instant: int, said: Whereabouts) {
    exists n, day :: FirstSlot(t, id, today, instant, n, day) &&
      said == if OnLeaveOn(t.leaves, Some(id), day) then OnApprovedLeave else Leading(t.slots[n].code, t.slots[n].room)
  }

  /** What a person is told. What was set by hand counts first, then the first day on the board that places them, then
      the earliest slot of theirs that is on and not written yet, by their leave on its date, then their leave today,
      and then their station. */
  ghost predicate Told(t: Board, p: Person, today: int, instant: int, said: Whereabouts) {
    if p.id in t.overrides && t.overrides[p.id] != "" then said == Overridden(t.overrides[p.id])
    else if AnyDay(t, p.id, today, instant) then DayTold(t, p.id, today, instant, said)
    else if AnySlot(t, p.id, today, instant) then SlotTold(t, p.id, today, instant, said)
    else if OnLeaveOn(t.leaves, Some(p.id), today) then said == OnApprovedLeave
    else if p.station.None? || p.station.value == "" then said == AtBase("Unassigned")
    else said == AtBase(p.station.value)
  }

  lemma {:induction false} FirstOfNone<T(!new)>(s: seq<T>, q: T -> bool, says: T -> Option<Whereabouts>)
    requires forall k :: 0 <= k < |s| ==> !(q(s[k]) && says(s[k]).Some?)
    ensures FirstOf(Filter(s, q), says) == None
  {
    if s != [] {
      FirstOfNone(s[..|s| - 1], q, says);
    }
  }

  lemma {:induction false} FirstOfAt<T(!new)>(s: seq<T>, q: T -> bool, says: T -> Option<Whereabouts>, n: nat)
    requires n < |s| && q(s[n]) && says(s[n]).Some?
    requires forall k :: 0 <= k < n ==> !(q(s[k]) && says(s[k]).Some?)
    ensures FirstOf(Filter(s, q), says) == says(s[n])
  {
    if n == |s| - 1 {
      FirstOfNone(s[..n], q, says);
    } else {
      FirstOfAt(s[..|s| - 1], q, says, n);
    }
  }

  lemma PlacesIff(t: Board, id: int, today: int, instant: int, row: DayRow)
    ensures Places(row, id, today, instant) <==> Recent(row, today, instant) && DaySays(t, id, row).Some?
  {
  }

  lemma {:induction false} FindFirstDay(t: Board, id: int, today: int, instant: int, k: nat) returns (n: nat)
    requires k < |t.days| && Places(t.days[k], id, today, instant)
    ensures FirstDay(t, id, today, instant, n)
  {
    n := k;
    if j :| 0 <= j < k && Places(t.days[j], id, today, instant) {
      n := FindFirstDay(t, id, today, instant, j);
    }
  }

  lemma FirstDayDecides(t: Board, id: int, today: int, instant: int, n: nat)
    requires FirstDay(t, id, today, instant, n)
    ensures DayTier(t, id, today, instant) == DaySays(t, id, t.days[n]) && DaySays(t, id, t.days[n]).Some?
  {
    var recent, says := (r: DayRow) => Recent(r, today, instant), (r: DayRow) => DaySays(t, id, r);
    forall k | 0 <= k <= n ensures Places(t.days[k], id, today, instant) <==> recent(t.days[k]) && says(t.days[k]).Some? {
      PlacesIff(t, id, today, instant, t.days[k]);
    }
    FirstOfAt(t.days, recent, says, n);
  }

  lemma NoDaySilent(t: Board, id: int, today: int, instant: int)
    requires !AnyDay(t, id, today, instant)
    ensures DayTier(t, id, today, instant) == None
  {
    var recent, says := (r: DayRow) => Recent(r, today, instant), (r: DayRow) => DaySays(t, id, r);
    forall k | 0 <= k < |t.days| ensures !(recent(t.days[k]) && says(t.days[k]).Some?) {
      PlacesIff(t, id, today, instant, t.days[k]);
    }
    FirstOfNone(t.days, recent, says);
  }

  lemma DayTierTells(t: Board, id: int, today: int, instant: int)
    ensures DayTier(t, id, today, instant).Some? <==> AnyDay(t, id, today, instant)
    ensures AnyDay(t, id, today, instant) ==> DayTold(t, id, today, instant, DayTier(t, id, today, instant).value)
  {
    if k :| 0 <= k < |t.days| && Places(t.days[k], id, today, instant) {
      var n := FindFirstDay(t, id, today, instant, k);
      FirstDayDecides(t, id, today, instant, n);
    } else {
      NoDaySilent(t, id, today, instant);
    }
  }

  // The slots: the candidates before the earliest that leads say nothing or come later, so sorting brings it first.

  lemma {:induction false} InsertHead<T(!new)>(s: seq<T>, x: T, le: (T, T) -> bool)
    requires s != [] && SortedBy(s, le) && TotalPreorder(le)
    ensures Insert(s, x, le) != [] && Insert(s, x, le)[0] == if le(s[0], x) then s[0] else x
  {
    var last := |s| - 1;
    if !le(s[last], x) && 0 < last {
      InsertHead(s[..last], x, le);
    }
  }

  /** Sorting keeps the first of the least first. */
  lemma {:induction false} SortHead<T(!new)>(a: seq<T>, x: T, b: seq<T>, le: (T, T) -> bool)
    requires TotalPreorder(le) && (forall y :: y in a ==> !le(y, x)) && (forall y :: y in b ==> le(x, y))
    ensures SortBy(a + [x] + b, le) != [] && SortBy(a + [x] + b, le)[0] == x
  {
    if b != [] {
      var front, last := b[..|b| - 1], b[|b| - 1];
      var all := a + [x] + front;
      assert (a + [x] + b)[..|a + [x] + b| - 1] == all;
      SortHead(a, x, front, le);
      SortByKeeps(all, le);
      InsertHead(SortBy(all, le), last, le);
    } else {
      assert a + [x] + b == a + [x] && (a + [x])[..|a|] == a;
      SortByKeeps(a, le);
      if a != [] {
        assert SortBy(a, le)[0] in SortBy(a, le);
        InsertHead(SortBy(a, le), x, le);
      }
    }
  }

  lemma {:induction false} FirstOfHead<T(!new)>(s: seq<T>, says: T -> Option<Whereabouts>)
    requires s != [] && says(s[0]).Some?
    ensures FirstOf(s, says) == says(s[0])
  {
    if |s| > 1 {
      FirstOfHead(s[..|s| - 1], says);
    }
  }

  /** A candidate that speaks, with silent or later ones before it and none less after it, decides. */
  lemma LeastDecides(a: seq<Candidate>, c: Candidate, b: seq<Candidate>, says: Candidate -> Option<Whereabouts>)
    requires says(c).Some?
    requires forall x :: x in a && says(x).Some? ==> !CandidateLe(x, c)
    requires forall x :: x in b && says(x).Some? ==> CandidateLe(c, x)
    ensures FirstOf(SortBy(a + [c] + b, CandidateLe), says) == says(c)
  {
    var speaks := (x: Candidate) => says(x).Some?;
    var all := a + [c] + b;
    FirstOfFilter(SortBy(all, CandidateLe), speaks, says);
    SortFilter(all, CandidateLe, speaks);
    FilterConcat(a + [c], b, speaks);
    FilterOneMore(a, c, speaks);
    SortHead(Filter(a, speaks), c, Filter(b, speaks), CandidateLe);
    FirstOfHead(SortBy(Filter(all, speaks), CandidateLe), says);
  }

  lemma {:induction false} CandidateIsASlots(rows: seq<SlotRow>, today: int, c: Candidate)
    requires c in CandidatesFrom(rows, today)
    ensures exists n :: 0 <= n < |rows| && rows[n] == c.row && c.day in DatesOn(rows[n], today)
  {
    var last := |rows| - 1;
    if c in CandidatesFrom(rows[..last], today) {
      CandidateIsASlots(rows[..last], today, c);
      var n :| 0 <= n < last && rows[..last][n] == c.row && c.day in DatesOn(rows[..last][n], today);
      assert rows[n] == c.row;
    } else {
      assert c in CandidatesOf(rows[last], DatesOn(rows[last], today));
      assert rows[last] == c.row;
    }
  }

  lemma {:induction false} CandidatesPrefix(rows: seq<SlotRow>, today: int, n: nat)
    requires n <= |rows|
    ensures CandidatesFrom(rows[..n], today) <= CandidatesFrom(rows, today)
  {
    if n < |rows| {
      CandidatesPrefix(rows[..|rows| - 1], today, n);
      assert rows[..|rows| - 1][..n] == rows[..n];
    } else {
      assert rows[..n] == rows;
    }
  }

  /** The candidates before the n-th slot's date: those of earlier slots and its own earlier dates. */
  ghost function CandidatesBefore(rows: seq<SlotRow>, today: int, n: nat, i: nat): seq<Candidate>
    requires n < |rows| && i <= |DatesOn(rows[n], today)|
  {
    CandidatesFrom(rows[..n], today) + CandidatesOf(rows[n], DatesOn(rows[n], today)[..i])
  }

  lemma OwnSplit(row: SlotRow, dates: seq<int>, i: nat)
    requires i < |dates|
    ensures CandidatesOf(row, dates) == CandidatesOf(row, dates[..i]) + [Candidate(dates[i], row)] + CandidatesOf(row, dates[i + 1..])
  {
  }

  lemma Regroup<T(!new)>(all: seq<T>, a: seq<T>, b: seq<T>, c: seq<T>, d: seq<T>) returns (rest: seq<T>)
    requires a + (b + c + d) <= all
    ensures all == a + b + c + rest
  {
    rest := d + all[|a + (b + c + d)|..];
  }

  lemma CandidatesSplit(rows: seq<SlotRow>, today: int, n: nat, i: nat) returns (rest: seq<Candidate>)
    requires n < |rows| && i < |DatesOn(rows[n], today)|
    ensures CandidatesFrom(rows, today) == CandidatesBefore(rows, today, n, i) + [Candidate(DatesOn(rows[n], today)[i], rows[n])] + rest
  {
    var dates := DatesOn(rows[n], today);
    CandidatesPrefix(rows, today, n + 1);
    assert rows[..n + 1][..n] == rows[..n];
    OwnSplit(rows[n], dates, i);
    rest := Regroup(CandidatesFrom(rows, today), CandidatesFrom(rows[..n], today), CandidatesOf(rows[n], dates[..i]),
                    [Candidate(dates[i], rows[n])], CandidatesOf(rows[n], dates[i + 1..]));
  }

  lemma LeadsIff(t: Board, id: int, today: int, instant: int, n: int, day: int)
    requires 0 <= n < |t.slots|
    ensures Leads(t, id, today, instant, n, day)
       <==> day in DatesOn(t.slots[n], today) && SlotSays(t, id, instant, Candidate(day, t.slots[n])).Some?
  {
    assert Generated(t, t.slots[n].slot.id, day) <==>
           exists k :: 0 <= k < |t.days| && t.days[k].day.slot == Some(t.slots[n].slot.id) && t.days[k].day.date == day;
  }

  lemma {:induction false} FindFirstSlot(t: Board, id: int, today: int, instant: int, m: nat, d: int) returns (n: nat, day: int)
    requires Leads(t, id, today, instant, m, d)
    ensures FirstSlot(t, id, today, instant, n, day)
    decreases d - today + 1, t.slots[m].slot.start, m
  {
    n, day := m, d;
    if j, e :| Leads(t, id, today, instant, j, e) && Earlier(t, j, e, m, d) {
      n, day := FindFirstSlot(t, id, today, instant, j, e);
    }
  }

  lemma NoneBefore(t: Board, id: int, today: int, instant: int, n: nat, i: nat, x: Candidate)
    requires n < |t.slots| && i < |DatesOn(t.slots[n], today)| && FirstSlot(t, id, today, instant, n, DatesOn(t.slots[n], today)[i])
    requires x in CandidatesBefore(t.slots, today, n, i) && SlotSays(t, id, instant, x).Some?
    ensures !CandidateLe(x, Candidate(DatesOn(t.slots[n], today)[i], t.slots[n]))
  {
    if x in CandidatesFrom(t.slots[..n], today) {
      CandidateIsASlots(t.slots[..n], today, x);
      var m :| 0 <= m < n && t.slots[..n][m] == x.row && x.day in DatesOn(t.slots[..n][m], today);
      LeadsIff(t, id, today, instant, m, x.day);
    } else {
      var dates := DatesOn(t.slots[n], today)[..i];
      assert x in CandidatesOf(t.slots[n], dates);
      assert x.day in dates && x.row == t.slots[n];
      LeadsIff(t, id, today, instant, n, x.day);
    }
  }

  lemma NoneLess(t: Board, id: int, today: int, instant: int, n: nat, day: int, x: Candidate)
    requires FirstSlot(t, id, today, instant, n, day) && x in CandidatesFrom(t.slots, today) && SlotSays(t, id, instant, x).Some?
    ensures CandidateLe(Candidate(day, t.slots[n]), x)
  {
    CandidateIsASlots(t.slots, today, x);
    var m :| 0 <= m < |t.slots| && t.slots[m] == x.row && x.day in DatesOn(t.slots[m], today);
    LeadsIff(t, id, today, instant, m, x.day);
    assert !Earlier(t, m, x.day, n, day);
  }

  /** Sorting only one person's candidates is as good as sorting everybody's. */
  lemma SlotTierOverAll(t: Board, id: int, today: int, instant: int)
    ensures SlotTier(t, id, today, instant) == SlotsSay(t, id, instant, SortBy(CandidatesFrom(t.slots, today), CandidateLe))
  {
    var all := CandidatesFrom(t.slots, today);
    var mine := (c: Candidate) => c.row.slot.lead == Some(id);
    FirstOfFilter(SortBy(all, CandidateLe), mine, (c: Candidate) => SlotSays(t, id, instant, c));
    SortFilter(all, CandidateLe, mine);
  }

  lemma FirstSlotDecides(t: Board, id: int, today: int, instant: int, n: nat, day: int)
    requires FirstSlot(t, id, today, instant, n, day)
    ensures SlotTier(t, id, today, instant) == SlotSays(t, id, instant, Candidate(day, t.slots[n]))
    ensures SlotTier(t, id, today, instant).Some?
  {
    LeadsIff(t, id, today, instant, n, day);
    var says := (c: Candidate) => SlotSays(t, id, instant, c);
    var i :| 0 <= i < |DatesOn(t.slots[n], today)| && DatesOn(t.slots[n], today)[i] == day;
    var rest := CandidatesSplit(t.slots, today, n, i);
    var a := CandidatesBefore(t.slots, today, n, i);
    forall x | x in a && says(x).Some? ensures !CandidateLe(x, Candidate(day, t.slots[n])) {
      NoneBefore(t, id, today, instant, n, i, x);
    }
    forall x | x in rest && says(x).Some? ensures CandidateLe(Candidate(day, t.slots[n]), x) {
      NoneLess(t, id, today, instant, n, day, x);
    }
    LeastDecides(a, Candidate(day, t.slots[n]), rest, says);
    SlotTierOverAll(t, id, today, instant);
  }

  lemma NoSlotSilent(t: Board, id: int, today: int, instant: int)
    requires !AnySlot(t, id, today, instant)
    ensures SlotTier(t, id, today, instant) == None
  {
    var sorted := SortBy(CandidatesFrom(t.slots, today), CandidateLe);
    var says := (c: Candidate) => SlotSays(t, id, instant, c);
    SortByKeeps(CandidatesFrom(t.slots, today), CandidateLe);
    forall x | x in sorted ensures says(x).None? {
      CandidateIsASlots(t.slots, today, x);
      var m :| 0 <= m < |t.slots| && t.slots[m] == x.row && x.day in DatesOn(t.slots[m], today);
      LeadsIff(t, id, today, instant, m, x.day);
    }
    FirstOfNone(sorted, (c: Candidate) => true, says);
    FilterAll(sorted, (c: Candidate) => true);
    SlotTierOverAll(t, id, today, instant);
  }

  lemma AwayIsOnLeave(leaves: seq<Leave>, id: int, day: int)
    ensures Away(leaves, Some(id), day) <==> OnLeaveOn(leaves, Some(id), day)
  {
  }

  lemma SlotTierTells(t: Board, id: int, today: int, instant: int)
    ensures SlotTier(t, id, today, instant).Some? <==> AnySlot(t, id, today, instant)
    ensures AnySlot(t, id, today, instant) ==> SlotTold(t, id, today, instant, SlotTier(t, id, today, instant).value)
  {
    if m, d :| Leads(t, id, today, instant, m, d) {
      var n, day := FindFirstSlot(t, id, today, instant, m, d);
      FirstSlotDecides(t, id, today, instant, n, day);
      AwayIsOnLeave(t.leaves, id, day);
    } else {
      NoSlotSilent(t, id, today, instant);
    }
  }

  lemma AnswerTells(t: Board, p: Person, today: int, instant: int)
    ensures Told(t, p, today, instant, Answer(t, p, today, instant))
  {
    DayTierTells(t, p.id, today, instant);
    SlotTierTells(t, p.id, today, instant);
    AwayIsOnLeave(t.leaves, p.id, today);
  }

  // ---------------------------------------------------------------- the batched pass

  predicate HasOverride(t: Board, id: int) {
    id in t.overrides && t.overrides[id] != ""
  }

  function IdsOf(staff: seq<Person>): set<int> {
    set p | p in staff :: p.id
  }

  /** What a tier leaves about one person: an earlier answer untouched, or its own for who it was asked about. */
  ghost predicate SettledFor(before: map<int, Whereabouts>, asked: set<int>, id: int, said: Option<Whereabouts>, after: map<int, Whereabouts>) {
    && (id in after <==> id in before || (id in asked && said.Some?))
    && (id in before ==> after[id] == before[id])
    && (id in asked && id !in before && said.Some? ==> after[id] == said.value)
  }

  function OverrideSays(t: Board, id: int): Option<Whereabouts> {
    if HasOverride(t, id) then Some(Overridden(t.overrides[id])) else None
  }

  /** Tier 1: the status somebody set by hand. */
  method TryOverrides(t: Board, staff: seq<Person>) returns (resolved: map<int, Whereabouts>)
    ensures forall id :: SettledFor(map[], IdsOf(staff), id, OverrideSays(t, id), resolved)
  {
    resolved := map[];
    for n := 0 to |staff|
      invariant forall id :: SettledFor(map[], IdsOf(staff[..n]), id, OverrideSays(t, id), resolved)
    {
      assert staff[..n + 1] == staff[..n] + [staff[n]];
      assert IdsOf(staff[..n + 1]) == IdsOf(staff[..n]) + {staff[n].id};
      if HasOverride(t, staff[n].id) {
        resolved := resolved[staff[n].id := Overridden(t.overrides[staff[n].id])];
      }
    }
    assert staff[..|staff|] == staff;
  }

  predicate Concerns(row: DayRow, asked: set<int>) {
    (row.cover.Some? && row.cover.value in asked) || (row.day.lead.Some? && row.day.lead.value in asked)
  }

  function DaysSay(t: Board, id: int, rows: seq<DayRow>): Option<Whereabouts> {
    FirstOf(rows, (r: DayRow) => DaySays(t, id, r))
  }

  /** One day handed to its cover and then to its lead. */
  method HandOut(t: Board, asked: set<int>, row: DayRow, before: map<int, Whereabouts>) returns (after: map<int, Whereabouts>)
    ensures forall id :: SettledFor(before, asked, id, DaySays(t, id, row), after)
  {
    after := before;
    if row.cover.Some? && row.cover.value in asked && row.cover.value !in after && Coverable(row.day.state) {
      after := after[row.cover.value := Substituting(row.room)];
    }
    if row.day.lead.None? || row.day.lead.value !in asked || row.day.lead.value in after {
      return;
    }
    if row.day.state.OnLeave? {
      after := after[row.day.lead.value := OnApprovedLeave];
    } else if row.day.state.Scheduled? && row.cover.None? {
      after := after[row.day.lead.value := Leading(CodeOf(t, row.activity), row.room)];
    }
  }

  /** Tier 2: the days running now, each speaking for its cover and for its lead. */
  method TryDays(t: Board, asked: set<int>, before: map<int, Whereabouts>, today: int, instant: int) returns (resolved: map<int, Whereabouts>)
    requires asked !! before.Keys
    ensures forall id :: SettledFor(before, asked, id, DayTier(t, id, today, instant), resolved)
    ensures forall id :: id in asked ==> (id in resolved <==> AnyDay(t, id, today, instant))
    ensures forall id :: id in asked && id in resolved ==> DayTold(t, id, today, instant, resolved[id])
  {
    var running := Filter(t.days, (r: DayRow) => Concerns(r, asked) && Recent(r, today, instant));
    resolved := before;
    for n := 0 to |running|
      invariant forall id :: SettledFor(before, asked, id, DaysSay(t, id, running[..n]), resolved)
    {
      ghost var earlier := resolved;
      resolved := HandOut(t, asked, running[n], resolved);
      ghost var tried := running[..n + 1];
      assert tried == running[..n] + [running[n]];
      forall id ensures SettledFor(before, asked, id, DaysSay(t, id, tried), resolved) {
        assert SettledFor(before, asked, id, DaysSay(t, id, running[..n]), earlier);
        assert SettledFor(earlier, asked, id, DaySays(t, id, running[n]), resolved);
      }
    }
    assert running[..|running|] == running;
    forall id ensures SettledFor(before, asked, id, DayTier(t, id, today, instant), resolved) {
      assert SettledFor(before, asked, id, DaysSay(t, id, running), resolved);
      if id in asked {
        DaysAboutOthers(t, asked, id, today, instant);
      }
    }
    forall id | id in asked
      ensures id in resolved <==> AnyDay(t, id, today, instant)
      ensures id in resolved ==> DayTold(t, id, today, instant, resolved[id])
    {
      DayTierTells(t, id, today, instant);
    }
  }

  /** Days that name neither as cover nor as lead anybody asked about say nothing about one of them. */
  lemma DaysAboutOthers(t: Board, asked: set<int>, id: int, today: int, instant: int)
    requires id in asked
    ensures DaysSay(t, id, Filter(t.days, (r: DayRow) => Concerns(r, asked) && Recent(r, today, instant)))
         == DayTier(t, id, today, instant)
  {
    var recent := (r: DayRow) => Recent(r, today, instant);
    var both := (r: DayRow) => Concerns(r, asked) && Recent(r, today, instant);
    var says := (r: DayRow) => DaySays(t, id, r);
    FilterTwice(t.days, recent, both);
    FirstOfFilter(Filter(t.days, recent), both, says);
  }

  lemma FilterTwice<T(!new)>(s: seq<T>, wide: T -> bool, p: T -> bool)
    requires forall x :: p(x) ==> wide(x)
    ensures Filter(Filter(s, wide), p) == Filter(s, p)
  {
    FilterNarrow(s, wide, p);
  }

  predicate LedBy(row: SlotRow, asked: set<int>) {
    row.slot.lead.Some? && row.slot.lead.value in asked
  }

  lemma CandidatesKeepRow(row: SlotRow, dates: seq<int>, q: Candidate -> bool)
    requires forall d, d' :: q(Candidate(d, row)) == q(Candidate(d', row))
    ensures Filter(CandidatesOf(row, dates), q) == if q(Candidate(0, row)) then CandidatesOf(row, dates) else []
  {
    if q(Candidate(0, row)) {
      FilterAll(CandidatesOf(row, dates), q);
    } else {
      FilterNone(CandidatesOf(row, dates), q);
    }
  }

  /** Reading only the slots of the people asked about leaves each of them all of their own. */
  lemma {:induction false} CandidatesOfOne(rows: seq<SlotRow>, asked: set<int>, id: int, today: int)
    requires id in asked
    ensures Filter(CandidatesFrom(Filter(rows, (r: SlotRow) => LedBy(r, asked)), today), (c: Candidate) => c.row.slot.lead == Some(id))
         == Filter(CandidatesFrom(rows, today), (c: Candidate) => c.row.slot.lead == Some(id))
  {
    if rows != [] {
      var front, row := rows[..|rows| - 1], rows[|rows| - 1];
      var led := (r: SlotRow) => LedBy(r, asked);
      var mine := (c: Candidate) => c.row.slot.lead == Some(id);
      CandidatesOfOne(front, asked, id, today);
      var dates := DatesOn(row, today);
      FilterConcat(CandidatesFrom(front, today), CandidatesOf(row, dates), mine);
      CandidatesKeepRow(row, dates, mine);
      if led(row) {
        var kept := Filter(front, led);
        assert (kept + [row])[..|kept|] == kept;
        FilterConcat(CandidatesFrom(kept, today), CandidatesOf(row, dates), mine);
      }
    }
  }

  /** For one person, the sorted candidates of everybody are as good as their own. */
  lemma SlotsAboutOthers(t: Board, asked: set<int>, id: int, today: int, instant: int)
    requires id in asked
    ensures SlotsSay(t, id, instant, SortBy(CandidatesFrom(Filter(t.slots, (r: SlotRow) => LedBy(r, asked)), today), CandidateLe))
         == SlotTier(t, id, today, instant)
  {
    var all := CandidatesFrom(Filter(t.slots, (r: SlotRow) => LedBy(r, asked)), today);
    var mine := (c: Candidate) => c.row.slot.lead == Some(id);
    var says := (c: Candidate) => SlotSays(t, id, instant, c);
    FirstOfFilter(SortBy(all, CandidateLe), mine, says);
    SortFilter(all, CandidateLe, mine);
    CandidatesOfOne(t.slots, asked, id, today);
  }

  function SlotsSay(t: Board, id: int, instant: int, cs: seq<Candidate>): Option<Whereabouts> {
    FirstOf(cs, (c: Candidate) => SlotSays(t, id, instant, c))
  }

  /** One slot's date, for its lead, where the ledger has no row for it. */
  method OfferSlot(t: Board, asked: set<int>, instant: int, c: Candidate, before: map<int, Whereabouts>) returns (after: map<int, Whereabouts>)
    requires LedBy(c.row, asked)
    ensures forall id :: SettledFor(before, asked, id, SlotSays(t, id, instant, c), after)
  {
    var lead := c.row.slot.lead.value;
    after := before;
    if Generated(t, c.row.slot.id, c.day) {
      return;
    }
    if lead !in after && Running(Window(c.day, c.row.slot.start, c.row.slot.end), instant) {
      if Away(t.leaves, Some(lead), c.day) {
        after := after[lead := OnApprovedLeave];
      } else {
        after := after[lead := Leading(c.row.code, c.row.room)];
      }
    }
  }

  method OfferSlots(t: Board, asked: set<int>, instant: int, cs: seq<Candidate>, before: map<int, Whereabouts>) returns (resolved: map<int, Whereabouts>)
    requires forall c :: c in cs ==> LedBy(c.row, asked)
    ensures forall id :: SettledFor(before, asked, id, SlotsSay(t, id, instant, cs), resolved)
  {
    resolved := before;
    for n := 0 to |cs|
      invariant forall id :: SettledFor(before, asked, id, SlotsSay(t, id, instant, cs[..n]), resolved)
    {
      ghost var earlier := resolved;
      assert cs[n] in cs;
      resolved := OfferSlot(t, asked, instant, cs[n], resolved);
      ghost var tried := cs[..n + 1];
      assert tried == cs[..n] + [cs[n]];
      forall id ensures SettledFor(before, asked, id, SlotsSay(t, id, instant, tried), resolved) {
        assert SettledFor(before, asked, id, SlotsSay(t, id, instant, cs[..n]), earlier);
        assert SettledFor(earlier, asked, id, SlotSays(t, id, instant, cs[n]), resolved);
      }
    }
    assert cs[..|cs|] == cs;
  }

  /** Tier 3: the timetable, where the ledger has not been written yet. */
  method TrySlots(t: Board, asked: set<int>, before: map<int, Whereabouts>, today: int, instant: int) returns (resolved: map<int, Whereabouts>)
    requires asked !! before.Keys
    ensures forall id :: SettledFor(before, asked, id, SlotTier(t, id, today, instant), resolved)
    ensures forall id :: id in asked ==> (id in resolved <==> AnySlot(t, id, today, instant))
    ensures forall id :: id in asked && id in resolved ==> SlotTold(t, id, today, instant, resolved[id])
  {
    var candidates := CandidatesFrom(Filter(t.slots, (r: SlotRow) => LedBy(r, asked)), today);
    var sorted := SortBy(candidates, CandidateLe);
    SortByKeeps(candidates, CandidateLe);
    forall c | c in sorted ensures LedBy(c.row, asked) {
      LedByAsked(t.slots, asked, today, c);
    }
    resolved := OfferSlots(t, asked, instant, sorted, before);
    forall id ensures SettledFor(before, asked, id, SlotTier(t, id, today, instant), resolved) {
      assert SettledFor(before, asked, id, SlotsSay(t, id, instant, sorted), resolved);
      if id in asked {
        SlotsAboutOthers(t, asked, id, today, instant);
      }
    }
    forall id | id in asked
      ensures id in resolved <==> AnySlot(t, id, today, instant)
      ensures id in resolved ==> SlotTold(t, id, today, instant, resolved[id])
    {
      SlotTierTells(t, id, today, instant);
    }
  }

  lemma LedByAsked(rows: seq<SlotRow>, asked: set<int>, today: int, c: Candidate)
    requires c in CandidatesFrom(Filter(rows, (r: SlotRow) => LedBy(r, asked)), today)
    ensures LedBy(c.row, asked)
  {
    var test := (r: SlotRow) => LedBy(r, asked);
    var led := Filter(rows, test);
    CandidateIsASlots(led, today, c);
    var n :| 0 <= n < |led| && led[n] == c.row;
    assert led[n] in led && test(c.row);
  }

  function BaseOf(p: Person): Whereabouts {
    AtBase(if p.station.Some? && p.station.value != "" then p.station.value else "Unassigned")
  }

  function LeaveSays(t: Board, id: int, today: int): Option<Whereabouts> {
    if Away(t.leaves, Some(id), today) then Some(OnApprovedLeave) else None
  }

  /** Settles whoever has approved leave today and no answer yet. */
  method TryLeave(t: Board, asked: set<int>, before: map<int, Whereabouts>, today: int) returns (resolved: map<int, Whereabouts>)
    ensures forall id :: SettledFor(before, asked, id, LeaveSays(t, id, today), resolved)
  {
    var rest := set id | id in asked && id !in before && Away(t.leaves, Some(id), today);
    resolved := before + map id | id in rest :: OnApprovedLeave;
  }

  /** Tier 4: the base station, for whoever is left. */
  method FillBase(staff: seq<Person>, before: map<int, Whereabouts>) returns (resolved: map<int, Whereabouts>)
    requires forall a, b :: a in staff && b in staff && a.id == b.id ==> a == b
    ensures resolved.Keys == before.Keys + IdsOf(staff)
    ensures forall id :: id in before ==> resolved[id] == before[id]
    ensures forall p :: p in staff && p.id !in before ==> resolved[p.id] == BaseOf(p)
  {
    resolved := before;
    for n := 0 to |staff|
      invariant resolved.Keys == before.Keys + IdsOf(staff[..n])
      invariant forall id :: id in before ==> resolved[id] == before[id]
      invariant forall p :: p in staff[..n] && p.id !in before ==> p.id in resolved && resolved[p.id] == BaseOf(p)
    {
      var p := staff[n];
      assert staff[..n + 1] == staff[..n] + [p] && p in staff;
      assert IdsOf(staff[..n + 1]) == IdsOf(staff[..n]) + {p.id};
      if p.id !in resolved {
        resolved := resolved[p.id := BaseOf(p)];
      } else if p.id !in before {
        var q :| q in staff[..n] && q.id == p.id;
        assert q in staff;
      }
    }
    assert staff[..|staff|] == staff;
  }

  /** determine_staff_current_states: everybody at once, and each is told what the board says about them, as if
      nobody else had been asked about. */
  method DetermineStates(t: Board, staff: seq<Person>, today: int, instant: int) returns (resolved: map<int, Whereabouts>)
    requires forall a, b :: a in staff && b in staff && a.id == b.id ==> a == b
    ensures resolved.Keys == IdsOf(staff)
    ensures forall p :: p in staff ==> Told(t, p, today, instant, resolved[p.id])
  {
    var ids := IdsOf(staff);
    var first := TryOverrides(t, staff);
    var asked := set id | id in ids && id !in first;
    var second := TryDays(t, asked, first, today, instant);
    var still := set id | id in asked && id !in second;
    var third := TrySlots(t, still, second, today, instant);
    var fourth := TryLeave(t, still, third, today);
    resolved := FillBase(staff, fourth);
    forall id ensures id in fourth ==> id in ids {
      TiersSettle(t, ids, first, asked, second, still, third, fourth, id, today, instant);
    }
    forall p | p in staff ensures Told(t, p, today, instant, resolved[p.id]) {
      assert p.id in ids;
      TiersTell(t, ids, first, asked, second, still, third, fourth, p, today, instant);
    }
  }

  /** The four tiers one after the other, for one person. */
  lemma TiersSettle(t: Board, ids: set<int>, first: map<int, Whereabouts>, asked: set<int>, second: map<int, Whereabouts>,
                    still: set<int>, third: map<int, Whereabouts>, fourth: map<int, Whereabouts>, id: int, today: int, instant: int)
    requires SettledFor(map[], ids, id, OverrideSays(t, id), first)
    requires SettledFor(first, asked, id, DayTier(t, id, today, instant), second)
    requires SettledFor(second, still, id, SlotTier(t, id, today, instant), third)
    requires SettledFor(third, still, id, LeaveSays(t, id, today), fourth)
    requires id in asked <==> id in ids && id !in first
    requires id in still <==> id in asked && id !in second
    ensures id in fourth ==> id in ids
    ensures forall p: Person :: p.id == id && id in ids ==>
              Answer(t, p, today, instant) == if id in fourth then fourth[id] else BaseOf(p)
  {
  }

  lemma TiersTell(t: Board, ids: set<int>, first: map<int, Whereabouts>, asked: set<int>, second: map<int, Whereabouts>,
                  still: set<int>, third: map<int, Whereabouts>, fourth: map<int, Whereabouts>, p: Person, today: int, instant: int)
    requires SettledFor(map[], ids, p.id, OverrideSays(t, p.id), first)
    requires SettledFor(first, asked, p.id, DayTier(t, p.id, today, instant), second)
    requires SettledFor(second, still, p.id, SlotTier(t, p.id, today, instant), third)
    requires SettledFor(third, still, p.id, LeaveSays(t, p.id, today), fourth)
    requires p.id in ids && (p.id in asked <==> p.id !in first) && (p.id in still <==> p.id in asked && p.id !in second)
    ensures Told(t, p, today, instant, if p.id in fourth then fourth[p.id] else BaseOf(p))
  {
    TiersSettle(t, ids, first, asked, second, still, third, fourth, p.id, today, instant);
    AnswerTells(t, p, today, instant);
  }

  /** The batch is a product of single lookups. */
  method AskedTogetherAsAlone(t: Board, staff: seq<Person>, who: Person, today: int, instant: int) returns (together: Whereabouts, alone: Whereabouts)
    requires who in staff && forall a, b :: a in staff && b in staff && a.id == b.id ==> a == b
    ensures together == alone && Told(t, who, today, instant, alone)
  {
    assert who.id in IdsOf(staff) && who in [who] && who.id in IdsOf([who]);
    var all := DetermineStates(t, staff, today, instant);
    var one := DetermineStates(t, [who], today, instant);
    together, alone := all[who.id], one[who.id];
  }
}
