/** Dates, wall clock readings and the windows built from them
    (backend/app/core/time.py). A date is a day number, a time of day counts
    microseconds from midnight, and a naive instant counts microseconds on one line. */
module Time {

  /** Microseconds in a day. */
  const DAY: int := 86_400_000_000

  type TimeOfDay = t: int | 0 <= t < 86_400_000_000

  /** The half open stretch from lo, included, to hi, left out. */
  datatype Span = Span(lo: int, hi: int)

  /** A date and two wall clock readings. An end earlier than the start falls on the next date. */
  datatype Window = Window(day: int, start: TimeOfDay, end: TimeOfDay)

  /** datetime.combine, and the two halves it is taken apart into. */
  function At(day: int, tod: TimeOfDay): int {
    day * 86_400_000_000 + tod
  }

  function DateOf(instant: int): int {
    instant / 86_400_000_000
  }

  function TodOf(instant: int): TimeOfDay {
    instant % 86_400_000_000
  }

  lemma CombineRoundTrip(instant: int, day: int, tod: TimeOfDay)
    ensures At(DateOf(instant), TodOf(instant)) == instant
    ensures DateOf(At(day, tod)) == day && TodOf(At(day, tod)) == tod
  {
  }

  /** The first instant of a date. */
  function Midnight(day: int): int {
    At(day, 0)
  }

  /** The date a window finishes on. */
  function LastDate(w: Window): int {
    if w.end < w.start then w.day + 1 else w.day
  }

  function WindowSpan(w: Window): Span {
    Span(At(w.day, w.start), At(LastDate(w), w.end))
  }

  predicate Overlaps(a: Span, b: Span) {
    a.lo < b.hi && b.lo < a.hi
  }

  predicate Covers(s: Span, t: int) {
    s.lo <= t < s.hi
  }

  /** Equal times are refused at the edge: they would be nothing or a full day. */
  predicate Proper(w: Window) {
    w.start != w.end
  }

  /** A window is at least one tick and less than a day long exactly when its two times differ. */
  lemma SpanLength(w: Window)
    ensures 0 <= WindowSpan(w).hi - WindowSpan(w).lo < DAY
    ensures Proper(w) <==> 0 < WindowSpan(w).hi - WindowSpan(w).lo
  {
  }

  /** The lemma under every bounded fetch: windows that overlap are dated at most a day apart. */
  lemma OverlapMeansNear(a: Window, b: Window)
    requires Overlaps(WindowSpan(a), WindowSpan(b))
    ensures -1 <= a.day - b.day <= 1
  {
    SpanLength(a);
    SpanLength(b);
  }

  /** A window that reaches into the dates first..last is dated first - 1 at the earliest. */
  lemma ReachMeansDated(w: Window, first: int, last: int)
    requires Overlaps(WindowSpan(w), Span(Midnight(first), Midnight(last + 1)))
    ensures first - 1 <= w.day <= last
  {
  }

  /** Two windows with the same pair of times on different dates never meet. */
  lemma SameTimesApart(a: Window, b: Window)
    requires a.start == b.start && a.end == b.end && a.day != b.day
    ensures !Overlaps(WindowSpan(a), WindowSpan(b))
  {
    SpanLength(a);
    SpanLength(b);
  }

  /** Non-empty spans overlap exactly when they have an instant in common. */
  lemma OverlapIsCommonInstant(a: Span, b: Span)
    requires a.lo < a.hi && b.lo < b.hi
    ensures Overlaps(a, b) <==> exists t :: Covers(a, t) && Covers(b, t)
  {
    if Overlaps(a, b) {
      var t := if a.lo < b.lo then b.lo else a.lo;
      assert Covers(a, t) && Covers(b, t);
    }
  }
}
