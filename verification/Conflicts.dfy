/** The conflict report (backend/app/services/conflicts.py): the one-pass sweep, the range it is cut
    to, and what counts on a resource. */
module Conflicts {
  import opened Sequences
  import opened Time
  import opened Recurrence
  import opened Tables
  import opened Pool
  import opened Availability

  /** In the order the type names sort: ledger_day, reservation, slot. */
  datatype ItemKind = DayItem | HoldItem | SlotItem

  /** One interval of the report. A generated day is known by its place in the table. */
  datatype Item = Item(window: Window, kind: ItemKind, id: int)

  function SpanOf(i: Item): Span {
    WindowSpan(i.window)
  }

  function Rank(k: ItemKind): int {
    match k case DayItem => 0 case HoldItem => 1 case SlotItem => 2
  }

  /** The sort key (starts, ends, type, id). */
  predicate KeyLe(a: Item, b: Item) {
    if SpanOf(a).lo != SpanOf(b).lo then SpanOf(a).lo < SpanOf(b).lo
    else if SpanOf(a).hi != SpanOf(b).hi then SpanOf(a).hi < SpanOf(b).hi
    else if a.kind != b.kind then Rank(a.kind) < Rank(b.kind)
    else a.id <= b.id
  }

  // ---------------------------------------------------------------- the sweep

  /** Those of a list that are still open at an instant. */
  function OpenAt(s: seq<Item>, t: int): seq<Item> {
    Filter(s, (i: Item) => t < SpanOf(i).hi)
  }

  function PairAll(others: seq<Item>, entry: Item): seq<(Item, Item)> {
    seq(|others|, k requires 0 <= k < |others| => (others[k], entry))
  }

  /** The reference: each entry of a sorted list with every earlier one that has not ended. */
  function Pairs(s: seq<Item>): seq<(Item, Item)> {
    if s == [] then []
    else
      var front, entry := s[..|s| - 1], s[|s| - 1];
      Pairs(front) + PairAll(OpenAt(front, SpanOf(entry).lo), entry)
  }

  lemma OpenLater(s: seq<Item>, t: int, later: int)
    requires t <= later
    ensures OpenAt(OpenAt(s, t), later) == OpenAt(s, later)
  {
    FilterNarrow(s, (i: Item) => t < SpanOf(i).hi, (i: Item) => later < SpanOf(i).hi);
  }

  /** From an instant on, the open list tells as much as everything before it. */
  ghost predicate TellsFrom(openNow: seq<Item>, all: seq<Item>, from: int) {
    forall t :: from <= t ==> OpenAt(openNow, t) == OpenAt(all, t)
  }

  lemma TellsOneMore(openNow: seq<Item>, all: seq<Item>, from: int, entry: Item)
    requires TellsFrom(openNow, all, from) && from <= SpanOf(entry).lo
    ensures TellsFrom(OpenAt(openNow, SpanOf(entry).lo) + [entry], all + [entry], SpanOf(entry).lo)
  {
    var lo := SpanOf(entry).lo;
    forall t | lo <= t ensures OpenAt(OpenAt(openNow, lo) + [entry], t) == OpenAt(all + [entry], t) {
      OpenLater(all, lo, t);
      FilterOneMore(OpenAt(openNow, lo), entry, (i: Item) => t < SpanOf(i).hi);
      FilterOneMore(all, entry, (i: Item) => t < SpanOf(i).hi);
    }
  }

  /** The inner loop: the entry with each that is open. */
  method YieldWith(openNow: seq<Item>, entry: Item) returns (pairs: seq<(Item, Item)>)
    ensures pairs == PairAll(openNow, entry)
  {
    pairs := [];
    for k := 0 to |openNow|
      invariant pairs == PairAll(openNow[..k], entry)
    {
      pairs := pairs + [(openNow[k], entry)];
      assert PairAll(openNow[..k + 1], entry) == PairAll(openNow[..k], entry) + [(openNow[k], entry)];
    }
    assert openNow[..|openNow|] == openNow;
  }

  /** _sweep: only what is still open is kept, and nothing that matters is lost by dropping the rest. */
  method Sweep(entries: seq<Item>) returns (pairs: seq<(Item, Item)>)
    ensures pairs == Pairs(SortBy(entries, KeyLe))
  {
    SortByKeeps(entries, KeyLe);
    pairs := SweepSorted(SortBy(entries, KeyLe));
  }

  method SweepSorted(sorted: seq<Item>) returns (pairs: seq<(Item, Item)>)
    requires forall i, j :: 0 <= i < j < |sorted| ==> SpanOf(sorted[i]).lo <= SpanOf(sorted[j]).lo
    ensures pairs == Pairs(sorted)
  {
    var openNow: seq<Item> := [];
    ghost var from := if sorted == [] then 0 else SpanOf(sorted[0]).lo;
    pairs := [];
    for n := 0 to |sorted|
      invariant pairs == Pairs(sorted[..n])
      invariant TellsFrom(openNow, sorted[..n], from)
      invariant n < |sorted| ==> from <= SpanOf(sorted[n]).lo
    {
      var entry := sorted[n];
      var all := sorted[..n];
      assert sorted[..n + 1] == all + [entry];
      TellsOneMore(openNow, all, from, entry);
      openNow := OpenAt(openNow, SpanOf(entry).lo);
      var found := YieldWith(openNow, entry);
      pairs := pairs + found;
      openNow := openNow + [entry];
      from := SpanOf(entry).lo;
    }
    assert sorted[..|sorted|] == sorted;
  }

  lemma InPairAll(others: seq<Item>, entry: Item, a: Item, b: Item)
    ensures (a, b) in PairAll(others, entry) <==> a in others && b == entry
  {
    if a in others && b == entry {
      var k :| 0 <= k < |others| && others[k] == a;
      assert PairAll(others, entry)[k] == (a, b);
    }
  }

  ghost predicate Before(s: seq<Item>, a: Item, b: Item) {
    exists i, j :: 0 <= i < j < |s| && s[i] == a && s[j] == b
  }

  lemma BeforeOneMore(s: seq<Item>, entry: Item, a: Item, b: Item)
    ensures Before(s + [entry], a, b) <==> Before(s, a, b) || (a in s && b == entry)
  {
    var more := s + [entry];
    if i, j :| 0 <= i < j < |s| && s[i] == a && s[j] == b {
      assert more[i] == a && more[j] == b;
    }
    if a in s && b == entry {
      var i :| 0 <= i < |s| && s[i] == a;
      assert more[i] == a && more[|s|] == b;
    }
    if i, j :| 0 <= i < j < |more| && more[i] == a && more[j] == b {
      assert s[i] == a;
    }
  }

  /** On a sorted list of non-empty windows, a pair comes out exactly when the first comes before the
      second and the two overlap. */
  lemma {:induction false} InPairs(s: seq<Item>, a: Item, b: Item)
    requires SortedBy(s, KeyLe) && forall i :: i in s ==> Proper(i.window)
    ensures (a, b) in Pairs(s) <==> Before(s, a, b) && Overlaps(SpanOf(a), SpanOf(b))
  {
    if s != [] {
      var front, entry := s[..|s| - 1], s[|s| - 1];
      assert s == front + [entry];
      InPairs(front, a, b);
      BeforeOneMore(front, entry, a, b);
      InPairAll(OpenAt(front, SpanOf(entry).lo), entry, a, b);
      if a in front && b == entry {
        var i :| 0 <= i < |front| && front[i] == a;
        assert KeyLe(s[i], s[|s| - 1]);
        assert entry in s;
        SpanLength(entry.window);
      }
    }
  }

  /** No pair comes out twice. */
  lemma {:induction false} PairsDistinct(s: seq<Item>)
    requires Distinct(s)
    ensures Distinct(Pairs(s))
    ensures forall p :: p in Pairs(s) ==> p.0 in s && p.1 in s
  {
    if s != [] {
      var front, entry := s[..|s| - 1], s[|s| - 1];
      PairsDistinct(front);
      var others := OpenAt(front, SpanOf(entry).lo);
      FilterDistinct(front, (i: Item) => SpanOf(entry).lo < SpanOf(i).hi);
      assert entry !in front;
      DistinctConcat(Pairs(front), PairAll(others, entry));
      forall p | p in PairAll(others, entry) ensures p.0 in front && p.1 == entry {
        InPairAll(others, entry, p.0, p.1);
      }
    }
  }

  /** Each overlapping pair of distinct intervals exactly once, in one order, and nothing else. */
  lemma SweepExact(entries: seq<Item>, a: Item, b: Item)
    requires Distinct(entries) && forall i :: i in entries ==> Proper(i.window)
    ensures var pairs := Pairs(SortBy(entries, KeyLe));
            && Distinct(pairs)
            && ((a, b) in pairs || (b, a) in pairs <==> a in entries && b in entries && a != b && Overlaps(SpanOf(a), SpanOf(b)))
            && !((a, b) in pairs && (b, a) in pairs)
  {
    var sorted := SortBy(entries, KeyLe);
    SortByKeeps(entries, KeyLe);
    PermutationDistinct(sorted, entries);
    PairsDistinct(sorted);
    InPairs(sorted, a, b);
    InPairs(sorted, b, a);
    OneOrder(sorted, a, b);
  }

  lemma OneOrder(s: seq<Item>, a: Item, b: Item)
    requires Distinct(s)
    ensures Before(s, a, b) || Before(s, b, a) <==> a in s && b in s && a != b
    ensures !(Before(s, a, b) && Before(s, b, a))
  {
    if a in s && b in s && a != b {
      var i :| 0 <= i < |s| && s[i] == a;
      var j :| 0 <= j < |s| && s[j] == b;
      if i < j {
        assert Before(s, a, b);
      } else {
        assert Before(s, b, a);
      }
    }
  }

  // ---------------------------------------------------------------- the range

  /** Three spans that meet two by two have an instant in common. */
  lemma CommonInstant(a: Span, b: Span, c: Span)
    requires a.lo < a.hi && b.lo < b.hi && c.lo < c.hi
    ensures Overlaps(a, b) && Overlaps(a, c) && Overlaps(b, c) <==> exists t :: Covers(a, t) && Covers(b, t) && Covers(c, t)
  {
    if Overlaps(a, b) && Overlaps(a, c) && Overlaps(b, c) {
      var m := if a.lo < b.lo then b.lo else a.lo;
      var t := if m < c.lo then c.lo else m;
      assert Covers(a, t) && Covers(b, t) && Covers(c, t);
    }
  }

  // ---------------------------------------------------------------- what counts on a resource

  /** A generated day with a window, on any room or none, took the slot's place on that date. */
  ghost predicate ReplacedAnywhere(db: Schedule, slot: int, day: int) {
    exists row :: row in db.days && row.hours.Some? && row.date == day && row.slot == Some(slot)
  }

  ghost predicate SlotItemOn(db: Schedule, resource: int, item: Item) {
    exists slot, day :: && slot in db.slots && slot.resource == Some(resource) && Live(slot) && SlotRunsOn(slot, day)
                        && !ReplacedAnywhere(db, slot.id, day) && item == Item(SlotWindow(slot, day), SlotItem, slot.id)
  }

  ghost predicate DayItemOn(db: Schedule, resource: int, item: Item) {
    exists k :: 0 <= k < |db.days| && ClaimsRoom(db.days[k], resource) && item == Item(DayWindow(db.days[k]), DayItem, k)
  }

  ghost predicate HoldItemOn(db: Schedule, resource: int, item: Item) {
    exists h :: h in db.reservations && HeldOn(h, resource) && item == Item(h.window, HoldItem, h.id)
  }

  /** Everything that holds a resource, on any date. */
  ghost predicate ItemOn(db: Schedule, resource: int, item: Item) {
    SlotItemOn(db, resource, item) || DayItemOn(db, resource, item) || HoldItemOn(db, resource, item)
  }

  ghost predicate UniqueIds(db: Schedule) {
    && (forall i, j :: 0 <= i < j < |db.slots| ==> db.slots[i].id != db.slots[j].id)
    && (forall i, j :: 0 <= i < j < |db.reservations| ==> db.reservations[i].id != db.reservations[j].id)
  }

  ghost predicate Windowed(db: Schedule) {
    && (forall s :: s in db.slots ==> s.start != s.end)
    && (forall row :: row in db.days && row.hours.Some? ==> row.hours.value.start != row.hours.value.end)
    && (forall h :: h in db.reservations ==> Proper(h.window))
  }

  /** The slot occurrences of one date, in slot order. */
  method SlotItemsOn(db: Schedule, resource: int, first: int, last: int, on: int, range: Span) returns (items: seq<Item>)
    requires UniqueIds(db) && first - 1 <= on <= last
    ensures Distinct(items)
    ensures forall i :: i in items <==> SlotItemOn(db, resource, i) && i.window.day == on && Overlaps(SpanOf(i), range)
  {
    items := [];
    for n := 0 to |db.slots|
      invariant Distinct(items)
      invariant forall i :: i in items <==>
                  exists k :: && 0 <= k < n && SlotShown(db, resource, db.slots[k], on, range)
                              && i == Item(SlotWindow(db.slots[k], on), SlotItem, db.slots[k].id)
    {
      var slot := db.slots[n];
      var settled := exists row :: row in db.days && first - 1 <= row.date <= last && row.hours.Some?
                                 && row.date == on && row.slot == Some(slot.id);
      assert settled <==> ReplacedAnywhere(db, slot.id, on);
      var item := Item(SlotWindow(slot, on), SlotItem, slot.id);
      if slot.resource == Some(resource) && Live(slot) && SlotRunsOn(slot, on) && !settled && Overlaps(SpanOf(item), range) {
        assert item !in items;
        items := items + [item];
      }
    }
    forall i ensures i in items <==> SlotItemOn(db, resource, i) && i.window.day == on && Overlaps(SpanOf(i), range) {
      if SlotItemOn(db, resource, i) && i.window.day == on && Overlaps(SpanOf(i), range) {
        var slot, day :| && slot in db.slots && slot.resource == Some(resource) && Live(slot) && SlotRunsOn(slot, day)
                         && !ReplacedAnywhere(db, slot.id, day) && i == Item(SlotWindow(slot, day), SlotItem, slot.id);
        var k :| 0 <= k < |db.slots| && db.slots[k] == slot;
        assert SlotShown(db, resource, db.slots[k], on, range);
      }
    }
  }

  ghost predicate SlotShown(db: Schedule, resource: int, slot: Slot, on: int, range: Span) {
    && slot.resource == Some(resource) && Live(slot) && SlotRunsOn(slot, on) && !ReplacedAnywhere(db, slot.id, on)
    && Overlaps(WindowSpan(SlotWindow(slot, on)), range)
  }

  /** The dates of the range one by one, from the day before. */
  method GatherSlots(db: Schedule, resource: int, first: int, last: int) returns (items: seq<Item>)
    requires UniqueIds(db)
    ensures Distinct(items)
    ensures forall i :: i in items <==> SlotItemOn(db, resource, i) && Overlaps(SpanOf(i), Asked(first, last))
  {
    items := [];
    var on := first - 1;
    while on <= last
      invariant first - 1 <= on && (on <= last + 1 || on == first - 1)
      invariant Distinct(items)
      invariant forall i :: i in items <==>
                  SlotItemOn(db, resource, i) && first - 1 <= i.window.day < on && Overlaps(SpanOf(i), Asked(first, last))
    {
      var today := SlotItemsOn(db, resource, first, last, on, Asked(first, last));
      DistinctConcat(items, today);
      items := items + today;
      on := on + 1;
    }
    forall i | Overlaps(SpanOf(i), Asked(first, last)) ensures first - 1 <= i.window.day <= last {
      ReachMeansDated(i.window, first, last);
    }
  }

  method GatherDays(db: Schedule, resource: int, first: int, last: int) returns (items: seq<Item>)
    ensures Distinct(items)
    ensures forall i :: i in items <==> DayItemOn(db, resource, i) && Overlaps(SpanOf(i), Asked(first, last))
  {
    items := [];
    for n := 0 to |db.days|
      invariant Distinct(items)
      invariant forall i :: i in items <==>
                  i.id < n && DayItemOn(db, resource, i) && Overlaps(SpanOf(i), Asked(first, last))
    {
      var row := db.days[n];
      if ClaimsRoom(row, resource) {
        var item := Item(DayWindow(row), DayItem, n);
        if Overlaps(SpanOf(item), Asked(first, last)) {
          ReachMeansDated(item.window, first, last);
        }
        if first - 1 <= row.date <= last && Overlaps(SpanOf(item), Asked(first, last)) {
          assert DayItemOn(db, resource, item);
          items := items + [item];
        }
      }
    }
  }

  method GatherHolds(db: Schedule, resource: int, first: int, last: int) returns (items: seq<Item>)
    requires UniqueIds(db)
    ensures Distinct(items)
    ensures forall i :: i in items <==> HoldItemOn(db, resource, i) && Overlaps(SpanOf(i), Asked(first, last))
  {
    items := [];
    for n := 0 to |db.reservations|
      invariant Distinct(items)
      invariant forall i :: i in items <==>
                  exists k :: && 0 <= k < n && HeldOn(db.reservations[k], resource) && Overlaps(SpanOf(i), Asked(first, last))
                              && i == Item(db.reservations[k].window, HoldItem, db.reservations[k].id)
    {
      var h := db.reservations[n];
      var item := Item(h.window, HoldItem, h.id);
      if Overlaps(SpanOf(item), Asked(first, last)) {
        ReachMeansDated(item.window, first, last);
      }
      if HoldsIn(h, resource, first, last) && Overlaps(SpanOf(item), Asked(first, last)) {
        assert item !in items;
        items := items + [item];
      }
    }
    forall i | HoldItemOn(db, resource, i) && Overlaps(SpanOf(i), Asked(first, last)) ensures i in items {
      var h :| h in db.reservations && HeldOn(h, resource) && i == Item(h.window, HoldItem, h.id);
      var k :| 0 <= k < |db.reservations| && db.reservations[k] == h;
    }
  }

  /** A booking on a shared resource clashes with nothing; two on a pool are counted, not paired. */
  predicate PairCounts(mode: Mode, a: Item, b: Item) {
    match mode
    case Exclusive => true
    case Shared => !a.kind.HoldItem? && !b.kind.HoldItem?
    case Pooled => !(a.kind.HoldItem? && b.kind.HoldItem?)
  }

  /** The resource side of find_conflicts for one resource. */
  method ResourceClashes(db: Schedule, resource: int, mode: Mode, first: int, last: int) returns (clashes: seq<(Item, Item)>)
    requires UniqueIds(db) && Windowed(db) && first <= last
    ensures Distinct(clashes)
    ensures forall a, b :: (a, b) in clashes || (b, a) in clashes <==> Clash(db, resource, mode, first, last, a, b)
    ensures forall a, b :: !((a, b) in clashes && (b, a) in clashes)
  {
    var slots := GatherSlots(db, resource, first, last);
    var days := GatherDays(db, resource, first, last);
    var holds := GatherHolds(db, resource, first, last);
    DistinctConcat(slots, days);
    DistinctConcat(slots + days, holds);
    var entries := slots + days + holds;
    if mode.Shared? {
      FilterDistinct(entries, (i: Item) => !i.kind.HoldItem?);
      entries := Filter(entries, (i: Item) => !i.kind.HoldItem?);
    }
    forall i | i in entries ensures Proper(i.window) {
    }
    var pairs := Sweep(entries);
    clashes := Filter(pairs, (p: (Item, Item)) => PairCounts(mode, p.0, p.1));
    forall a, b
      ensures (a, b) in clashes || (b, a) in clashes <==> Clash(db, resource, mode, first, last, a, b)
      ensures !((a, b) in clashes && (b, a) in clashes)
    {
      SweepExact(entries, a, b);
      ClashIff(db, resource, mode, first, last, a, b);
    }
    assert Distinct(pairs) by {
      SweepDistinct(entries);
    }
    FilterDistinct(pairs, (p: (Item, Item)) => PairCounts(mode, p.0, p.1));
  }

  /** Two intervals are reported exactly when both hold the resource at one instant of the range, and no booking of
      a shared resource is among them, and both are bookings only of an exclusive one. */
  ghost predicate Clash(db: Schedule, resource: int, mode: Mode, first: int, last: int, a: Item, b: Item) {
    && ItemOn(db, resource, a) && ItemOn(db, resource, b) && a != b
    && (a.kind.HoldItem? || b.kind.HoldItem? ==> mode != Shared) && (a.kind.HoldItem? && b.kind.HoldItem? ==> mode == Exclusive)
    && exists t :: Covers(SpanOf(a), t) && Covers(SpanOf(b), t) && Covers(Asked(first, last), t)
  }

  lemma ClashIff(db: Schedule, resource: int, mode: Mode, first: int, last: int, a: Item, b: Item)
    requires Windowed(db) && first <= last
    ensures Clash(db, resource, mode, first, last, a, b) <==>
            && ItemOn(db, resource, a) && ItemOn(db, resource, b) && a != b && PairCounts(mode, a, b)
            && Overlaps(SpanOf(a), SpanOf(b)) && Overlaps(SpanOf(a), Asked(first, last)) && Overlaps(SpanOf(b), Asked(first, last))
  {
    if ItemOn(db, resource, a) && ItemOn(db, resource, b) {
      SpanLength(a.window);
      SpanLength(b.window);
      CommonInstant(SpanOf(a), SpanOf(b), Asked(first, last));
    }
  }

  lemma SweepDistinct(entries: seq<Item>)
    requires Distinct(entries) && forall i :: i in entries ==> Proper(i.window)
    ensures Distinct(Pairs(SortBy(entries, KeyLe)))
  {
    var any := Item(Window(0, 0, 1), DayItem, 0);
    SweepExact(entries, any, any);
  }

  // ---------------------------------------------------------------- overbooked pools

  /** One stretch in which a pool's bookings hold more than it has. */
  datatype Overbooking = Overbooking(span: Span, taken: int, items: seq<Reservation>)

  function StretchesOf(reports: seq<Overbooking>): seq<Span> {
    seq(|reports|, i requires 0 <= i < |reports| => reports[i].span)
  }

  /** The bookings of a resource that reach into the range. */
  function HoldsReaching(db: Schedule, resource: int, first: int, last: int): seq<Reservation> {
    Filter(HeldReservations(db, resource, first, last), (h: Reservation) => Overlaps(WindowSpan(h.window), Asked(first, last)))
  }

  method Report(rows: seq<Reservation>, capacity: nat, s: Span) returns (report: Overbooking)
    requires Quantities(rows) && s.lo < s.hi
    requires forall t :: Covers(s, t) ==> capacity < Covering(LoadsOf(rows), t)
    ensures report.span == s && Described(rows, capacity, report)
  {
    var taken := PoolPeak(rows, Some(s));
    var items := Filter(rows, (h: Reservation) => WindowSpan(h.window).lo < s.hi && s.lo < WindowSpan(h.window).hi);
    var peak := PeakReachedWithin(rows, s);
    report := Overbooking(s, taken, items);
  }

  method Reports(rows: seq<Reservation>, capacity: nat, stretches: seq<Span>) returns (reports: seq<Overbooking>)
    requires Quantities(rows) && forall i :: 0 <= i < |stretches| ==> stretches[i].lo < stretches[i].hi
    requires forall t :: InSome(stretches, t) ==> capacity < Covering(LoadsOf(rows), t)
    ensures StretchesOf(reports) == stretches
    ensures forall r :: r in reports ==> Described(rows, capacity, r)
  {
    reports := [];
    for n := 0 to |stretches|
      invariant StretchesOf(reports) == stretches[..n]
      invariant forall r :: r in reports ==> Described(rows, capacity, r)
    {
      assert forall t :: Covers(stretches[n], t) ==> InSome(stretches, t);
      var report := Report(rows, capacity, stretches[n]);
      reports := reports + [report];
      assert StretchesOf(reports) == stretches[..n + 1];
    }
    assert stretches[..|stretches|] == stretches;
  }

  /** _overbooked: one report per stretch, naming the bookings open in it and the most they hold. */
  method Overbooked(db: Schedule, resource: int, capacity: nat, first: int, last: int) returns (reports: seq<Overbooking>)
    requires Quantities(db.reservations)
    ensures Separated(StretchesOf(reports))
    ensures forall t :: Midnight(first) <= t < Midnight(last + 1) ==>
              (InSome(StretchesOf(reports), t) <==> capacity < Covering(LoadsOf(AllHolds(db, resource)), t))
    ensures forall r :: r in reports ==> Described(HoldsReaching(db, resource, first, last), capacity, r)
    ensures first <= last ==> forall r :: r in reports ==> PeakInRange(db, resource, first, last, r)
  {
    var rows := HoldsReaching(db, resource, first, last);
    var stretches := PoolStretches(rows, capacity + 1);
    reports := Reports(rows, capacity, stretches);
    forall t | Midnight(first) <= t < Midnight(last + 1)
      ensures Covering(LoadsOf(rows), t) == Covering(LoadsOf(AllHolds(db, resource)), t)
    {
      ReachingCounts(db, resource, first, last, t);
    }
    if first <= last {
      forall r | r in reports ensures PeakInRange(db, resource, first, last, r) {
        var k :| 0 <= k < |reports| && reports[k] == r;
        assert StretchesOf(reports)[k] == r.span;
        PeakIsInRange(db, resource, capacity, first, last, stretches, k, r);
      }
    }
  }

  /** The stretch meets the range, and what is reported as taken is the most all the pool's bookings hold there. */
  ghost predicate PeakInRange(db: Schedule, resource: int, first: int, last: int, r: Overbooking) {
    && (exists t :: Covers(r.span, t) && Covers(Asked(first, last), t) && Covering(LoadsOf(AllHolds(db, resource)), t) == r.taken)
    && (forall t :: Covers(r.span, t) && Covers(Asked(first, last), t) ==> Covering(LoadsOf(AllHolds(db, resource)), t) <= r.taken)
  }

  predicate Between(a: int, b: int, t: int) {
    a <= t <= b || b <= t <= a
  }

  /** What is open outside the range is open all the way to its edge. */
  lemma PulledIntoRange(rows: seq<Reservation>, range: Span, t: int) returns (edge: int)
    requires Quantities(rows) && range.lo < range.hi
    requires forall h :: h in rows ==> Overlaps(WindowSpan(h.window), range)
    ensures Covers(range, edge)
    ensures forall x :: Between(t, edge, x) ==> Covering(LoadsOf(rows), t) <= Covering(LoadsOf(rows), x)
  {
    edge := if t < range.lo then range.lo else if range.hi <= t then range.hi - 1 else t;
    var loads := LoadsOf(rows);
    forall l | l in loads ensures Overlaps(l.span, range) {
      var k :| 0 <= k < |loads| && loads[k] == l;
      assert l == LoadOf(rows[k]) && rows[k] in rows;
    }
    forall x | Between(t, edge, x) ensures Covering(loads, t) <= Covering(loads, x) {
      CoveringMonotone(loads, t, x);
    }
  }

  /** A stretch holds everything that is joined to it. */
  lemma StretchIsWhole(stretches: seq<Span>, k: int, t: int, edge: int)
    requires Separated(stretches) && 0 <= k < |stretches| && Covers(stretches[k], t)
    requires forall x :: Between(t, edge, x) ==> InSome(stretches, x)
    ensures Covers(stretches[k], edge)
  {
    var s := stretches[k];
    assert !InSome(stretches, s.hi) && !InSome(stretches, s.lo - 1);
    assert Between(t, edge, s.hi) ==> InSome(stretches, s.hi);
    assert Between(t, edge, s.lo - 1) ==> InSome(stretches, s.lo - 1);
  }

  lemma PeakIsInRange(db: Schedule, resource: int, capacity: nat, first: int, last: int, stretches: seq<Span>, k: int, r: Overbooking)
    requires Quantities(db.reservations) && first <= last && Separated(stretches) && 0 <= k < |stretches| && r.span == stretches[k]
    requires forall t :: InSome(stretches, t) <==> capacity < Covering(LoadsOf(HoldsReaching(db, resource, first, last)), t)
    requires Described(HoldsReaching(db, resource, first, last), capacity, r)
    ensures PeakInRange(db, resource, first, last, r)
  {
    var rows := HoldsReaching(db, resource, first, last);
    var t :| Covers(r.span, t) && Covering(LoadsOf(rows), t) == r.taken;
    var edge := PulledIntoRange(rows, Asked(first, last), t);
    assert Between(t, edge, edge);
    StretchIsWhole(stretches, k, t, edge);
    forall x | Covers(Asked(first, last), x)
      ensures Covering(LoadsOf(rows), x) == Covering(LoadsOf(AllHolds(db, resource)), x)
    {
      ReachingCounts(db, resource, first, last, x);
    }
  }

  /** The count is the most the rows hold inside the stretch, it is over, and the items are those open in it. */
  ghost predicate Described(rows: seq<Reservation>, capacity: int, r: Overbooking) {
    && capacity < r.taken
    && (exists t :: Covers(r.span, t) && Covering(LoadsOf(rows), t) == r.taken)
    && (forall t :: Covers(r.span, t) ==> capacity < Covering(LoadsOf(rows), t) <= r.taken)
    && (forall h :: h in r.items <==> h in rows && Overlaps(WindowSpan(h.window), r.span))
  }

  lemma ReachingCounts(db: Schedule, resource: int, first: int, last: int, t: int)
    requires Midnight(first) <= t < Midnight(last + 1)
    ensures Covering(LoadsOf(HoldsReaching(db, resource, first, last)), t) == Covering(LoadsOf(AllHolds(db, resource)), t)
  {
    var p := (h: Reservation) => HoldsIn(h, resource, first, last);
    var q := (h: Reservation) => Overlaps(WindowSpan(h.window), Asked(first, last));
    var all := (h: Reservation) => HeldOn(h, resource);
    forall h | h in db.reservations && Covers(WindowSpan(h.window), t) ensures p(h) == all(h) && q(h) {
      ReachMeansDated(h.window, first, last);
    }
    CoveringOfFilters(db.reservations, p, all, t);
    var fetched := Filter(db.reservations, p);
    CoveringOfFilters(fetched, q, (h: Reservation) => true, t);
    FilterAll(fetched, (h: Reservation) => true);
  }

  // ---------------------------------------------------------------- against availability

  /** The table's own key: one day per slot and date. */
  ghost predicate OneDayPerSlotDate(db: Schedule) {
    forall a, b :: a in db.days && b in db.days && a.slot.Some? && a.slot == b.slot && a.date == b.date ==> a == b
  }

  /** The report has the slot's date on the resource exactly when availability has. */
  ghost predicate ListedAlike(db: Schedule, resource: int, slot: Slot, day: int) {
    SlotItemOn(db, resource, Item(SlotWindow(slot, day), SlotItem, slot.id)) <==> Timetabled(db, resource, SlotEntry(slot, day))
  }

  /** A day with a window, generated for a live slot of the resource on a date the slot runs. */
  ghost predicate DayOfSlotHere(db: Schedule, resource: int, slot: Slot, row: LedgerDay) {
    && slot in db.slots && slot.resource == Some(resource) && Live(slot) && SlotRunsOn(slot, row.date)
    && row in db.days && row.hours.Some? && row.slot == Some(slot.id)
  }

  /** The report and availability list the same slot dates on a resource, for all slots and dates, exactly
      when every dated day of a live slot of the resource is in the resource itself. */
  lemma SlotsCountAlikeIff(db: Schedule, resource: int)
    requires UniqueIds(db) && OneDayPerSlotDate(db)
    ensures (forall slot, day :: slot in db.slots ==> ListedAlike(db, resource, slot, day))
       <==> (forall slot, row :: DayOfSlotHere(db, resource, slot, row) ==> row.resource == Some(resource))
  {
    forall slot, day | slot in db.slots
      ensures ListedAlike(db, resource, slot, day) <==>
              (slot.resource == Some(resource) && Live(slot) && SlotRunsOn(slot, day) && ReplacedAnywhere(db, slot.id, day) ==> Replaced(db, resource, slot.id, day))
    {
    }
    if forall slot, day :: slot in db.slots ==> ListedAlike(db, resource, slot, day) {
      forall slot, row | DayOfSlotHere(db, resource, slot, row) ensures row.resource == Some(resource) {
        assert ListedAlike(db, resource, slot, row.date) && ReplacedAnywhere(db, slot.id, row.date);
      }
    }
    if forall slot, row :: DayOfSlotHere(db, resource, slot, row) ==> row.resource == Some(resource) {
      forall slot, day | slot in db.slots ensures ListedAlike(db, resource, slot, day) {
        if slot.resource == Some(resource) && Live(slot) && SlotRunsOn(slot, day) && ReplacedAnywhere(db, slot.id, day) {
          var row :| row in db.days && row.hours.Some? && row.date == day && row.slot == Some(slot.id);
          assert DayOfSlotHere(db, resource, slot, row);
        }
      }
    }
  }

  /** A slot of room 1 on one date, and the day generated for it moved to room 2. */
  function MovedDay(): Schedule {
    Schedule([Slot(1, Some(1), Rule(5, (d: int) => true), 0, 60_000_000, Cycle(5, 5, true), None, false, false)],
             [LedgerDay(5, Some(Hours(0, 60_000_000)), Some(1), Some(2), None, Scheduled)], [])
  }

  /** Availability has the slot in its room on the date, and the report has nothing there. */
  lemma MovedDayCountsApart()
    ensures Timetabled(MovedDay(), 1, SlotEntry(MovedDay().slots[0], 5))
    ensures forall i :: !ItemOn(MovedDay(), 1, i)
  {
    var db := MovedDay();
    var slot, moved := db.slots[0], db.days[0];
    assert moved in db.days && slot in db.slots;
    assert ReplacedAnywhere(db, 1, 5);
    assert !Replaced(db, 1, 1, 5);
    assert SlotRunsOn(slot, 5);
  }
}
