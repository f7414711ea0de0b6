/** Widening a window by a requirement's minutes (backend/app/services/requirements.py: _padded). */
module Padding {
  import opened Sequences
  import opened Time

  /** The span asked for: the window's own, widened. */
  function Widened(w: Window, before: nat, after: nat): Span {
    Span(WindowSpan(w).lo - before * 60_000_000, WindowSpan(w).hi + after * 60_000_000)
  }

  /** The midnights a padded window may not leave: the one that opens its date and the one that
      closes the date it finishes on. */
  function Fence(w: Window): Span {
    Span(Midnight(w.day), Midnight(DateOf(WindowSpan(w).hi - 1) + 1))
  }

  /** The widened window written as a date and two times again, or None. */
  function Padded(w: Window, before: nat, after: nat): Option<Window> {
    if before == 0 && after == 0 then Some(w)
    else
      var wide, fence := Widened(w, before, after), Fence(w);
      if wide.lo < fence.lo || fence.hi < wide.hi then None
      else if TodOf(wide.lo) == TodOf(wide.hi) then None
      else Some(Window(w.day, TodOf(wide.lo), TodOf(wide.hi)))
  }

  /** When there is padding, the answer is None exactly when the widened span leaves the fence or
      is a whole number of days long. */
  lemma PaddedRefuses(w: Window, before: nat, after: nat)
    requires before + after > 0
    ensures Padded(w, before, after).None? <==>
            || Widened(w, before, after).lo < Fence(w).lo || Fence(w).hi < Widened(w, before, after).hi
            || (Widened(w, before, after).hi - Widened(w, before, after).lo) % DAY == 0
  {
    SameTimeOfDay(Widened(w, before, after).lo, Widened(w, before, after).hi);
  }

  /** By the clock: the start moves back and may not pass midnight, the end moves on and may reach the midnight that
      closes its date, one that ends on midnight not at all, and the two may not come to read alike. */
  lemma PaddedIs(w: Window, before: nat, after: nat)
    requires Proper(w) && before + after > 0
    ensures var start, end := w.start - before * 60_000_000, w.end + after * 60_000_000;
            match Padded(w, before, after)
            case None => start < 0 || (if w.end == 0 then 0 < after else 86_400_000_000 < end) || start == end || start == end - 86_400_000_000
            case Some(p) =>
              && p.day == w.day && p.start == start && 0 <= start
              && (if w.end == 0 then after == 0 else end <= 86_400_000_000)
              && p.end == (if end == 86_400_000_000 then 0 else end) && p.end != start
  {
    EndsOn(w);
    var start, end := w.start - before * 60_000_000, w.end + after * 60_000_000;
    if 0 <= start {
      OnDate(w.day, start);
    }
    if end <= 86_400_000_000 {
      OnDate(LastDate(w), end);
    }
  }

  lemma DateAndTime(day: int, tod: TimeOfDay, instant: int)
    requires instant == At(day, tod)
    ensures DateOf(instant) == day && TodOf(instant) == tod
  {
    CombineRoundTrip(instant, day, tod);
  }

  /** The closing midnight of a window. */
  lemma EndsOn(w: Window)
    requires Proper(w)
    ensures Fence(w).lo == At(w.day, 0) && Fence(w).hi == At(if w.end == 0 then LastDate(w) else LastDate(w) + 1, 0)
  {
    DateAndTime(if w.end == 0 then w.day else LastDate(w), if w.end == 0 then 86_399_999_999 else w.end - 1, WindowSpan(w).hi - 1);
  }

  /** The time of day of an instant counted from a midnight. */
  lemma OnDate(day: int, offset: int)
    requires 0 <= offset <= 86_400_000_000
    ensures TodOf(At(day, 0) + offset) == if offset == 86_400_000_000 then 0 else offset
  {
    DateAndTime(if offset == 86_400_000_000 then day + 1 else day, if offset == 86_400_000_000 then 0 else offset, At(day, 0) + offset);
  }

  lemma SameTimeOfDay(a: int, b: int)
    ensures TodOf(a) == TodOf(b) <==> (b - a) % DAY == 0
  {
    assert b - a == 86_400_000_000 * (DateOf(b) - DateOf(a)) + (TodOf(b) - TodOf(a));
    assert b - a == 86_400_000_000 * ((b - a) / 86_400_000_000) + (b - a) % 86_400_000_000;
  }

  lemma PaddedProper(w: Window, before: nat, after: nat)
    requires Proper(w) && Padded(w, before, after).Some?
    ensures Proper(Padded(w, before, after).value) && Padded(w, before, after).value.day == w.day
  {
  }

  /** The round trip: what was written reads back as what was asked for exactly when it is under a day. */
  lemma PaddedRoundTrip(w: Window, before: nat, after: nat)
    requires Proper(w) && Padded(w, before, after).Some?
    ensures WindowSpan(Padded(w, before, after).value) == Widened(w, before, after)
       <==> Widened(w, before, after).hi - Widened(w, before, after).lo < DAY
  {
    if before + after > 0 {
      StartsOnItsDate(w, before, after);
      Reencoded(Widened(w, before, after));
    } else {
      SpanLength(w);
    }
  }

  /** A span written as the date it starts on and its two times of day reads back as itself exactly
      when it is shorter than a day. */
  lemma Reencoded(s: Span)
    requires s.lo < s.hi
    ensures WindowSpan(Window(DateOf(s.lo), TodOf(s.lo), TodOf(s.hi))) == s
       <==> s.hi - s.lo < DAY && TodOf(s.lo) != TodOf(s.hi)
  {
    var w := Window(DateOf(s.lo), TodOf(s.lo), TodOf(s.hi));
    SpanLength(w);
    CombineRoundTrip(s.lo, 0, 0);
    CombineRoundTrip(s.hi, 0, 0);
    assert DAY == 86_400_000_000;
    assert s.hi - s.lo < DAY ==> DateOf(s.hi) == DateOf(s.lo) || DateOf(s.hi) == DateOf(s.lo) + 1;
  }

  /** The fence puts the widened start on the window's own date, and the end at most two midnights on. */
  lemma StartsOnItsDate(w: Window, before: nat, after: nat)
    requires Proper(w) && before + after > 0 && Padded(w, before, after).Some?
    ensures DateOf(Widened(w, before, after).lo) == w.day
    ensures Widened(w, before, after).hi <= Midnight(LastDate(w) + 1)
    ensures WindowSpan(w).hi <= Widened(w, before, after).hi && Widened(w, before, after).lo <= WindowSpan(w).lo
  {
    SpanLength(w);
    OnItsDate(w.day, w.start, Widened(w, before, after).lo);
    FenceEnds(w);
  }

  lemma OnItsDate(day: int, start: TimeOfDay, lo: int)
    requires Midnight(day) <= lo <= At(day, start)
    ensures DateOf(lo) == day
  {
    CombineRoundTrip(lo, day, lo - Midnight(day));
  }

  lemma FenceEnds(w: Window)
    requires Proper(w)
    ensures Fence(w).hi <= Midnight(LastDate(w) + 1)
  {
    var hi := WindowSpan(w).hi - 1;
    if w.end == 0 {
      CombineRoundTrip(hi, LastDate(w) - 1, 86_399_999_999);
    } else {
      CombineRoundTrip(hi, LastDate(w), w.end - 1);
    }
  }

  /** A window that ends on the date it starts on always round trips. */
  lemma SameDayRoundTrip(w: Window, before: nat, after: nat)
    requires w.start < w.end && Padded(w, before, after).Some?
    ensures WindowSpan(Padded(w, before, after).value) == Widened(w, before, after)
  {
    if before + after > 0 {
      StartsOnItsDate(w, before, after);
      PaddedRefuses(w, before, after);
    }
    SpanLength(w);
    PaddedRoundTrip(w, before, after);
  }

  /** An overnight window with twenty hours before it is written as a morning that ends before the
      window even begins: 22:00 to 06:00 becomes 02:00 to 06:00 on the opening date. */
  lemma OvernightPaddingLost()
    ensures var w := Window(0, 79_200_000_000, 21_600_000_000);
            && Padded(w, 1200, 0) == Some(Window(0, 7_200_000_000, 21_600_000_000))
            && WindowSpan(w) == Span(79_200_000_000, 108_000_000_000)
            && WindowSpan(Padded(w, 1200, 0).value) == Span(7_200_000_000, 21_600_000_000)
  {
    var w := Window(0, 79_200_000_000, 21_600_000_000);
    assert Widened(w, 1200, 0) == Span(7_200_000_000, 108_000_000_000);
    assert DateOf(107_999_999_999) == 1;
    assert TodOf(108_000_000_000) == 21_600_000_000;
  }
}
