# Chronos Ledger: a verified model of the scheduling engine

Chronos Ledger keeps a timetable of recurring slots, turns it into dated rows, takes bookings of rooms
and equipment against it, and tells other systems what changed. This project models the part of the
backend that decides things, and proves what its comments and documentation promise.

Dates are day numbers, a time of day counts microseconds from midnight, and a window is a date with two
times: an end earlier than the start falls on the next date. Tables are sequences or maps, a database
transaction is one step. Where the code works by changing an object (the walk's `_Run`, the ledger table,
the host clock, the webhook tables, the idempotency records) the model is a class or a method with a
loop, proved equal to a function, and the theorems are about the function.

`dafny verify dfyconfig.toml` checks the whole project.

## Layout

| file | what it holds |
|---|---|
| `Time.dfy`, `Recurrence.dfy`, `Tables.dfy`, `Sequences.dfy` | windows and spans, recurrence rules, the rows, lists and stable sorting |
| `Pool.dfy` | the sweep line over quantities |
| `Availability.dfy`, `RuleChecks.dfy` | bounded conflict lookups and rule-against-rule checks |
| `Requirements.dfy`, `Padding.dfy` | requirement rows, cycles, padded windows |
| `Walk.dfy`, `Walker.dfy` | the booking walk as functions, and as the object the code mutates |
| `Agreement.dfy`, `Accounts.dfy`, `Choices.dfy` | the dry run against the real one; what a walk owes each requirement, and each resource the caller assigned |
| `Booking.dfy` | schedule safety over runs of bookings |
| `Ledger.dfy`, `LedgerJob.dfy` | the one-day job, the batch, and the methods that run them |
| `Conflicts.dfy` | the conflict sweep, the resource side of the report |
| `Lease.dfy`, `FanOut.dfy`, `Pipeline.dfy`, `Webhooks.dfy` | the delivery protocol, the change feed, the two together, and the tables as the code changes them |
| `Scheduler.dfy` | the host clock and the jobs that run on it |
| `Locator.dfy` | where everybody is, asked together or alone |
| `Idempotency.dfy` | keyed writes over whole runs |

## Where the code does not do what it says

Each of these is a lemma at a concrete input, beside the lemma that says exactly when the promise holds.

- **A padded window over 24 hours is lost** (`Padding.OvernightPaddingLost`). `_padded` refuses a length of
  exactly 24 hours and not a longer one. 22:00 to 06:00 with twenty hours before it is written as 02:00 to
  06:00 of the opening date, which ends before the booking begins. The round trip holds exactly when the
  widened span is under a day (`Padding.PaddedRoundTrip`), so always for a window that ends on its own date.
- **Availability and the conflict report count moved days differently** (`Conflicts.MovedDayCountsApart`). A
  day generated for a slot and then moved to another room replaces the slot everywhere in the report, and
  only in its new room in availability. The two list the same slot dates on a room exactly when every dated
  day of its slots is in it (`Conflicts.SlotsCountAlikeIff`).
- **Without the exclusion constraint the one-day job can write what the batch would not**
  (`Ledger.SQLiteCanDiffer`): a row on top of a stored day of its own slot that still has an older window.
  With the constraint the two always agree. Without it they agree whenever the stored days of a slot carry its
  window, which a caller can look up (`Ledger.SameRowsWhenWindowsKept`), and exactly when each such row is
  stopped by another slot's day as well (`Ledger.SQLiteAgreesIff`).
- **A superseded claim can still write** (`Lease.ZeroBackoffLetsAStaleWriteThrough`,
  `Lease.RedeliveryAtTheLeaseLetsAStaleWriteThrough`, `Lease.SameInstantLetsAStaleWriteThrough`). `record` promises to
  write nothing once another pass claimed the row or it was redelivered, and tells by the lease. It writes
  exactly when the last change to the row set `next_attempt_at` to the old lease again
  (`Lease.StaleUpdateIff`): a failed attempt whose wait ends then, a redelivery at that instant, or a claim made
  at the same instant as the old one, as under a host clock that stands still. With waits above zero and
  redeliveries after the leases in flight, of that delivery, it never does (`Lease.RecordWritesIffCurrent`).
- **A redelivery in flight is sent twice at once** (`Lease.RedeliveryInFlightIsSentTwice`). A second claim stands inside
  a lease only if the row had been made due again (`Lease.SecondClaimOnlyIf`, with `Lease.DueInsideALeaseIff` for what
  makes it so), and then the run can go on to two senders (`Lease.DueInFlightIsSentTwice`).
- **A request that settles late can drop another's claim** (`Idempotency.LateOwnerDropsAnothersClaim`), because a
  claim is told by its hash alone. At most once holds for an effect exactly over the runs in which no settling
  drops its own claim inside the window (`Idempotency.AtMostOnceIff`).
- **Purging can change a later answer** (`Idempotency.PurgeCanChangeALaterAnswer`): a refusal settled over an expired
  record is written into that record and lost, but gets a record of its own if the purge ran first. It does
  exactly when a kept response is settled over a record old enough to be purged
  (`Idempotency.PurgeBeforeSettlingIff`).
- **The booking route takes a resource that is out of use** (`Booking.InactiveIsBooked`), which availability refuses;
  for active ones the two agree (`Booking.AvailabilityIsBookableIff`).
- **A shared resource is booked in an hour availability calls busy** (`Booking.SharedIsBookedWhileBusy`): the list has
  its timetable and booking does not ask. On exclusive and pooled resources the two agree exactly
  (`Booking.BusyOver`).
- **An interval job misses a mark before 1970** (`Scheduler.MarkBefore1970IsMissed`), where `int()` rounds up;
  `Scheduler.MarksExact` says exactly when.

And two limits the documentation states itself:

- A transaction open longer than the grace loses its events (`FanOut.LateCommitIsLost`). A marker is delivered
  exactly when it had committed by the pass that moved the cursor past it
  (`FanOut.DeliveredIffCommittedWhenPassed`), and none is ever delivered twice.
- A committed request that answers 5xx runs again (`Idempotency.UnkeptAnswerRunsAgain`).

`pool_stretches` finds nothing for a threshold below one (`Pool.PoolStretches`). A requirement more than four levels down
is listed with 1 missing, however many it asks for (`Accounts.EveryNeedIsAccountedFor`).

## Model

| member | source | states |
|---|---|---|
| `Time.SpanLength` | backend/app/core/time.py:76-103 | A window is shorter than a day, and non-empty exactly when its two times differ. |
| `Time.OverlapMeansNear` | backend/app/services/availability.py:101-125 | Windows that overlap are dated at most a day apart: the fact every bounded fetch rests on. |
| `Time.ReachMeansDated` | backend/app/services/availability.py:109-125 | A window that reaches into a range of dates is dated the day before it at the earliest. |
| `Time.SameTimesApart` | backend/app/cron/ledger_generator.py:145-157 | Two days of one slot carrying the same pair of times never overlap, overnight ones included. |
| `Time.OverlapIsCommonInstant` | backend/app/services/availability.py:56-65 | Half-open overlap of non-empty spans is having an instant in common. |
| `Recurrence.Occurrences` | backend/app/core/recurrence.py:90-104 | The dates of a range the rule runs on, all of them, strictly increasing, none before the rule's start. |
| `Recurrence.OccursOnIsRunsOn` | backend/app/core/recurrence.py:107-108 | Asking about one date is the one-day range. |
| `Pool.PeakIsMaximum` | backend/app/services/availability.py:604-617 | The peak over the starts is the exact maximum of the covering sum over all instants, and is reached. |
| `Pool.Deltas` | backend/app/services/availability.py:585-595 | The delta loop holds, at exactly the instants where a booking starts or ends, the net change there. |
| `Pool.Levels` | backend/app/services/availability.py:585-601 | The running total at each edge equals the sum of the bookings covering that instant; every edge, once, in order. |
| `Pool.PoolPeak` | backend/app/services/availability.py:604-617 | The loop's maximum over clipped bookings bounds the covering sum at every instant of the window. |
| `Pool.PeakReachedWithin` | backend/app/services/availability.py:604-617 | And some instant inside the window reaches it. |
| `Pool.SweepStretches` | backend/app/services/availability.py:620-635 | The open/close loop yields strictly separated stretches covering exactly the instants at or above a threshold of at least one. |
| `Pool.PoolStretches` | backend/app/services/availability.py:620-635 | The same for bookings; below one the answer is empty. |
| `Pool.FullIntervals` | backend/app/services/availability.py:638-667 | Inside the range, an instant is in a full interval exactly when the bookings given hold the whole capacity; nothing lies outside the range. |
| `Availability.Occupied` | backend/app/services/availability.py:486-577 | The three loops and the sort equal their specification, ascending in date, start, last date and end. |
| `Availability.InOccupied` | backend/app/services/availability.py:486-577 | What occupied lists: slot dates not replaced by a generated day, days and holds, each exactly when it reaches into the range. |
| `Availability.WindowConflictsExact` | backend/app/services/availability.py:670-722 | The bounded lookup returns exactly the slot dates not replaced, the days and the holds, over all dates, that overlap the window. |
| `Availability.PoolHoldsExact` | backend/app/services/availability.py:725-739 | At every instant of the window the fetched bookings sum to what all bookings sum to. |
| `Availability.PoolTakenExact` | backend/app/services/availability.py:725-739 | The taken count is the maximum over the window of the sum of all bookings ever made. |
| `Availability.PoolFullOver` | backend/app/services/availability.py:638-667 | Despite the one-day fetch, full intervals are exact against all bookings of the pool. |
| `RuleChecks.TriedAround` | backend/app/services/availability.py:185-206 | Trying the day before, the day and the day after finds a date of the rule on a window exactly when any date of it is. |
| `RuleChecks.HeldAgainstSlot` | backend/app/services/availability.py:143-206 | Exactly the standing bookings some date of the proposed rule would sit on. |
| `RuleChecks.DaysAgainstSlot` | backend/app/services/availability.py:436-483 | Exactly the generated days some date of the rule would sit on, the slot's own left out. |
| `RuleChecks.DaysAgainstWindow` | backend/app/services/availability.py:408-433 | Exactly the room's days that overlap the window, over all dates. |
| `RuleChecks.NoCrossing` | backend/app/services/availability.py:305-327 | Two rules cannot meet crosswise on neighbouring dates, which is why the first meeting found is the earliest. |
| `RuleChecks.FirstMeeting` | backend/app/services/availability.py:305-327 | Finds a meeting of two date lists exactly when there is one, and the earliest sat-on date. |
| `RuleChecks.MeetingInBounds` | backend/app/services/availability.py:252-302 | Every meeting of two rules lies inside the dates the code expands. |
| `RuleChecks.MeetingWith` | backend/app/services/availability.py:252-302 | Two rules are found to meet exactly when some date from tomorrow in one cycle overlaps some date in the other, over all dates. |
| `RuleChecks.SlotsAgainstSlot` | backend/app/services/availability.py:209-302 | Names exactly the other slots of the room that meet the rule, in order, each with the earliest date sat on. |
| `Requirements.WouldCycle` | backend/app/services/requirements.py:77-100 | Terminates and answers true exactly when the owner can be reached from the target. |
| `Requirements.AcyclicAfterAdd` | backend/app/services/requirements.py:494-532 | Adding a row keeps the table free of cycles exactly when that check said no. |
| `Requirements.RequirementTable.Add` | backend/app/services/requirements.py:494-532 | The refusals in the code's order; the row is saved exactly when the table with it has no cycle, no target twice for an owner, and asks only for kinds in use and resources there are, several units only of a pool. |
| `Requirements.SavedIff` | backend/app/services/requirements.py:494-532 | Saving answers yes exactly when the table with the row is still such a table. |
| `Requirements.RequirementTable.Delete` | backend/app/services/requirements.py:535-552 | Removes that owner's row or says it is not there, and keeps the table as good. |
| `Requirements.NeverNeedsItself` | backend/app/services/requirements.py:77-100 | Over any sequence of additions and deletions no resource comes to need itself, no owner asks for a target twice, and every row asks for a kind in use or a resource there is, several units only of a pool. |
| `Padding.PaddedRefuses` | backend/app/services/requirements.py:103-125 | Padding is refused exactly when it leaves the window's own dates or makes a whole number of days. |
| `Padding.PaddedIs` | backend/app/services/requirements.py:103-125 | By the clock: the start moves back by the minutes before and may not pass midnight, the end moves on by those after and may reach the midnight that closes its date, and it is refused exactly otherwise or when the two come to read alike. |
| `Padding.PaddedProper` | backend/app/services/requirements.py:103-125 | A padded window keeps its date and has two different times. |
| `Padding.PaddedRoundTrip` | backend/app/services/requirements.py:103-125 | The padded window reads back as the span asked for exactly when that span is under a day. |
| `Padding.SameDayRoundTrip` | backend/app/services/requirements.py:103-125 | A window that ends on the date it starts always reads back. |
| `Padding.OvernightPaddingLost` | backend/app/services/requirements.py:114-125 | The window over 24 hours that is written as one four hours long. |
| `Walker.WalkRun.Miss` | backend/app/services/requirements.py:175-206 | Reports the gap, or raises for a required one in a real run, as the walk's specification does. |
| `Walker.WalkRun.Hold` | backend/app/services/requirements.py:209-242 | Marks the resource used and, for real, appends the child. |
| `Walker.WalkRun.WalkOwners` | backend/app/services/requirements.py:256-287 | The recursive walk leaves the object as the specification says, or raises what it says; `Accounts.EveryNeedIsAccountedFor` says what that is. |
| `Walker.WalkRun.NeedNamed` | backend/app/services/requirements.py:290-303 | A named requirement, likewise. |
| `Walker.WalkRun.NeedKind` | backend/app/services/requirements.py:306-353 | A kind requirement, likewise: assigned resources first, then the catalogue, then the shortfall. |
| `Walker.WalkRun.FromAssigned` | backend/app/services/requirements.py:307-324 | Popping the caller's assignments one at a time, with everything they require. |
| `Walker.WalkRun.FromCatalogue` | backend/app/services/requirements.py:325-342 | Trying the catalogue in order until enough are held. |
| `Walker.WalkRun.Resolve` | backend/app/services/requirements.py:356-389 | The whole call, leftover assignments refused; what it holds and lists is in `Accounts.EveryNeedIsAccountedFor` and `Choices.EveryChoiceIsAnswered`. |
| `Agreement.ProblemElsewhere` | backend/app/services/requirements.py:151-172 | A hold on one resource never changes whether another is free. |
| `Agreement.AgreeOwners` | backend/app/services/requirements.py:256-287 | Step by step through the recursion: same used set, same assignments left, same unmet list, or the real run stopped at the dry run's first blocking gap. |
| `Agreement.AgreeNamed` | backend/app/services/requirements.py:290-303 | The same through a named requirement. |
| `Agreement.AgreeKind` | backend/app/services/requirements.py:306-353 | The same through a kind requirement. |
| `Agreement.DryAndRealAgree` | backend/app/services/requirements.py:356-389 | A real resolve succeeds exactly when the dry run completes with no blocking gap; then both report the same unmet list and use the same resources, each held exactly once and each checked free; otherwise it stops for the first blocking gap. |
| `Accounts.EveryNeedIsAccountedFor` | backend/app/services/requirements.py:256-353 | After a completed real resolve, every requirement of an owner asked about over the window, and of every child held over that child's own window, is met by as many children as it wants, or has exactly one gap with what is missing. Each child is held for one such requirement over its padded window, on the resource named with its units or on one of the kind, the caller's or the first of the catalogue that could be had. Each gap is of such a requirement, advisory, and its reason stands in the final schedule; one below four levels says 1. No resource is held twice. |
| `Choices.EveryChoiceIsAnswered` | backend/app/services/requirements.py:306-389 | In a resolve that goes through, dry or real, each resource the caller assigned is used by the booking or a gap of its kind is listed; a refusal for assignments nobody asked for names at least one, and assignments only. |
| `Booking.PoolFitsIff` | backend/app/services/availability.py:725-739 | A pool with one booking more is never over exactly when the peak in the window leaves room. |
| `Booking.ProblemExact` | backend/app/services/requirements.py:151-172 | On an active resource the check refuses exactly the holds that would break the schedule. |
| `Booking.ProblemSays` | backend/app/services/requirements.py:151-172 | A refusal gives the reason of the resource's mode, with exactly the slot dates, days and bookings, over all dates, that sit on the window: without bookings for a pool taken by its timetable, and only bookings for one with too few units left. |
| `Booking.ShortSays` | backend/app/services/requirements.py:343-353 | A kind that came up short gives the first refusal, how many of how many are missing, and the conflicts of every refusal. |
| `Booking.SafeAfterWalk` | backend/app/services/requirements.py:356-389 | Any completed real walk, through every named and kind pick, leaves a resource that is safe so: an exclusive one free of overlaps, a pool within capacity at every instant. What state the others are in does not matter. |
| `Booking.BookKeepsSafe` | backend/app/api/v1/endpoints/resources.py:767-865 | So does the booking route, parent included, for each resource on its own. |
| `Booking.BookAsks` | backend/app/api/v1/endpoints/resources.py:767-865 | The route gets as far as the requirements exactly when the resource is there and free as if in use, more than one unit is asked for only of a pool, and every assignment is an active resource of its kind. |
| `Booking.BookHolds` | backend/app/api/v1/endpoints/resources.py:767-865 | What it holds is the request as asked and its children, and nothing else changes. |
| `Booking.BookIsAccountedFor` | backend/app/api/v1/endpoints/resources.py:767-865 | A booking that is held is accounted for: each requirement of the resource and of all held with it, each child, each gap, and each assignment. |
| `Booking.AvailabilityIsBookableIff` | backend/app/api/v1/endpoints/resources.py:358-362 | Availability calls a window free with all it requires exactly when the booking route holds it with nothing unmet and the resource is active. |
| `Booking.InactiveIsBooked` | backend/app/api/v1/endpoints/resources.py:767-777 | A room out of use that the route books for any window, and availability refuses. |
| `Booking.BusyOver` | backend/app/api/v1/endpoints/resources.py:338-350 | On an exclusive or pooled resource one unit can be booked over a window exactly when nothing in the busy list over its dates overlaps it; on a shared one it always can, and the list is the timetable's. |
| `Booking.SharedIsBookedWhileBusy` | backend/app/api/v1/endpoints/resources.py:699-703 | The slot on a shared resource whose hour is listed and booked all the same. |
| `Booking.CancelKeepsSafe` | backend/app/api/v1/endpoints/resources.py:982-1024 | Letting bookings go breaks nothing. |
| `Booking.AlwaysSafe` | backend/app/services/requirements.py:209-242 | Over every sequence of bookings and cancellations a resource that is safe stays safe. |
| `Booking.IdsStayDistinct` | backend/app/services/requirements.py:209-242 | Over every such sequence no two bookings come to share an id. |
| `Ledger.BatchIsSoundAndMaximal` | backend/app/cron/ledger_generator.py:278-387 | The horizon leaves existing rows in place, adds no room overlap, adds only missing slot-dates, and every due slot-date ends with a row or overlaps one on its room. |
| `Ledger.DayByDayFillsIn` | backend/app/cron/ledger_generator.py:67-84 | Day after day, on either engine, each row written carries the id, room, lead and times of a slot that is in use and takes place on its date, and is on leave exactly when an approved leave of the lead covers the date, scheduled otherwise; no slot and date is written twice; a row sits on an earlier one only if that is its own slot's and there is no constraint; and a slot that takes place goes without a row only because its room is taken by one that was there, is of an earlier day, or is an older slot's. |
| `Ledger.BatchFillsIn` | backend/app/cron/ledger_generator.py:278-387 | The batch writes the same, and never over any row. |
| `Ledger.BatchTwice` | backend/app/cron/ledger_generator.py:278-298 | A second run writes nothing. |
| `Ledger.DayJobKeeps` | backend/app/cron/ledger_generator.py:208-264 | The one-day job decides the same missing slots in the same order as that date's part of the batch. |
| `Ledger.DayByDayKeeps` | backend/app/cron/ledger_generator.py:208-264 | Day after day the job walks the whole list the batch walks. |
| `Ledger.BatchRefinesDayByDay` | backend/app/cron/ledger_generator.py:278-387 | With the exclusion constraint, batch and day-by-day write the same rows, states included, in the same order. |
| `Ledger.SQLiteAgreesIff` | backend/app/cron/ledger_generator.py:145-205 | Without it they do exactly when each row on a stored day of its own slot is also stopped by another slot's day. |
| `Ledger.SameRowsWhenWindowsKept` | backend/app/cron/ledger_generator.py:390-449 | So whenever the stored days of a slot still carry its window, on either engine. |
| `Ledger.SQLiteCanDiffer` | backend/app/cron/ledger_generator.py:149-156 | The plan and the stored night for which the one-day job writes a row and the batch does not. |
| `LedgerJob.LedgerTable.InsertDay` | backend/app/cron/ledger_generator.py:145-205 | Writes the row exactly when nothing of another slot, the unique key or the constraint forbids it. |
| `LedgerJob.LedgerTable.GenerateDaily` | backend/app/cron/ledger_generator.py:208-264 | The loop over slots equals the one-day job, and with slots in id order fills in the date: rows as they should read, each once, no slot left out without a reason. The count is the rows written. |
| `LedgerJob.LedgerTable.Missing` | backend/app/cron/ledger_generator.py:300-335 | Gathers every due slot-date of the horizon without a row, each once. |
| `LedgerJob.SortedIsDayMajor` | backend/app/cron/ledger_generator.py:339-342 | Sorted, that list is day by day with the older slot first. |
| `LedgerJob.LeaveIn` | backend/app/cron/ledger_generator.py:344-358 | One lookup of leave answers for every lead and day of the horizon. |
| `LedgerJob.LedgerTable.RowsToWrite` | backend/app/cron/ledger_generator.py:360-366 | One row per slot-date, with the slot's id, room, lead and times, on leave exactly when an approved leave covers the date. |
| `LedgerJob.LedgerTable.WithoutOverlaps` | backend/app/cron/ledger_generator.py:390-449 | Keeping spans per room, fetched from a day around, loses no collision with any stored or kept row. |
| `LedgerJob.LedgerTable.MaterializeHorizon` | backend/app/cron/ledger_generator.py:278-387 | The method as a whole equals the batch and fills in the horizon: rows as they should read, each once, over nothing, no slot left out without a reason. The count is the rows written. |
| `Conflicts.Sweep` | backend/app/services/conflicts.py:138-149 | Keeping only what is still open yields each entry with every earlier one that has not ended. |
| `Conflicts.SweepExact` | backend/app/services/conflicts.py:138-149 | Each overlapping pair exactly once, in one order, and nothing else. |
| `Conflicts.CommonInstant` | backend/app/services/conflicts.py:322 | Three non-empty spans that overlap pairwise share an instant, so the range filter is exact. |
| `Conflicts.GatherSlots` | backend/app/services/conflicts.py:271-296 | The slot dates not settled by a day that reach into the range, each once. |
| `Conflicts.GatherDays` | backend/app/services/conflicts.py:298-310 | The dated days that reach into it. |
| `Conflicts.GatherHolds` | backend/app/services/conflicts.py:311-322 | The bookings that reach into it. |
| `Conflicts.ResourceClashes` | backend/app/services/conflicts.py:322-344 | On each resource the pairs reported are exactly those that share an instant inside the range, without the bookings of a shared resource and with two bookings only on an exclusive one, none twice. |
| `Conflicts.Overbooked` | backend/app/services/conflicts.py:177-200 | Inside the range an instant is in a reported stretch exactly when the pool's bookings hold more than it has; every stretch meets the range, what it reports as taken is the most all the bookings hold there, and its items are the bookings open in it. |
| `Conflicts.SlotsCountAlikeIff` | backend/app/services/conflicts.py:265-279 | With one day per slot and date, the report and availability list the same slot dates on a resource, for all slots and dates, exactly when every dated day of a live slot of the resource is in the resource itself. |
| `Conflicts.MovedDayCountsApart` | backend/app/services/conflicts.py:265-267 | The schedule with one moved day: availability has the slot in its old room and the report has nothing there. |
| `Lease.StepSound` | backend/app/services/webhooks.py:395-462 | Every claim, send, read, write, crash, fan-out, redelivery and clock step keeps claims timed, attempt rows accounted for and counts exact, whatever the waits. |
| `Lease.NextWasWritten` | backend/app/services/webhooks.py:417-462 | In every run the next attempt of a claimed delivery is what the last step that changed its row made it: a claim, a failed attempt or a redelivery. |
| `Lease.StaleUpdateIff` | backend/app/services/webhooks.py:551-618 | In every run the update of a superseded claim finds its row exactly when the last step that changed the row, after the claim, set its next attempt to the claim's lease again and the count is the one read; otherwise nothing is written. |
| `Lease.RecordWritesIffCurrent` | backend/app/services/webhooks.py:551-618 | From any state in which nobody works on a delivery, with waits of its own above zero and redeliveries of it after the leases in flight, its update finds its row exactly when the claim is the newest on it with no redelivery since; other deliveries do not matter. |
| `Lease.StepKeeps` | backend/app/services/webhooks.py:395-462 | Whatever is done to other deliveries, a step keeps the row of this one's current claim untouched and that of a superseded one beyond its lease, where a redelivery of it comes after the leases in flight. |
| `Lease.AttemptsAreCounted` | backend/app/services/webhooks.py:551-618 | In every run attempt_count is the number of attempt rows since the last redelivery, never over eight, and each row belongs to one claim of its delivery, no claim to two. |
| `Lease.StatusIsToldByTheLog` | backend/app/services/webhooks.py:551-618 | In every run a delivery has succeeded exactly when an attempt row of it since its last redelivery is a success, which is then the last; and has failed exactly when there are eight such rows and none is. |
| `Lease.ClaimedByRight` | backend/app/services/webhooks.py:417-462 | In every run each claim was made of a pending delivery that was due, for a subscription switched on and not paused, with no earlier change to its row pending. |
| `Lease.AttemptsInsideLease` | backend/app/services/webhooks.py:68-99 | In every run an attempt starts and is given up on inside its own lease, within fifteen seconds and with ten to spare. |
| `Lease.NeverSentTwiceAtOnce` | backend/app/services/webhooks.py:395-462 | From any state in which nobody works on a delivery, with redeliveries of it after the leases in flight and waits from zero up, a superseded claim on it is sending nothing. |
| `Lease.SecondClaimOnlyIf` | backend/app/services/webhooks.py:417-462 | In every run a second claim stands on a delivery although an older one has its lease only because, when it was made, the last step to change the row, after the older claim, had made it due again. |
| `Lease.DueInFlightIsSentTwice` | backend/app/services/webhooks.py:395-462 | And from any run in which a delivery being sent is due again, sendable and not held up, the run goes on to two claims sending it at once. |
| `Lease.DueInsideALeaseIff` | backend/app/services/webhooks.py:417-462 | In every run a delivery comes due although a claim on it still has its lease exactly when the last step that changed the row, after the claim, set its next attempt to now or earlier. |
| `Lease.RedeliveryInFlightIsSentTwice` | backend/app/services/webhooks.py:635-644 | The run with a redelivery in flight after which two claims send one delivery at once. |
| `Lease.RowsArriveInOrder` | backend/app/services/webhooks.py:417-462 | In every run with a subscription's fan-out in marker order: of two changes to one row of it, with the later claimed, the earlier is pending exactly when it was redelivered after the later had been claimed and has not ended since. |
| `Lease.RedeliveryKeepsOrderIff` | backend/app/services/webhooks.py:635-644 | A redelivery keeps its row in order exactly when no later change to that row has been claimed yet. |
| `Lease.FiveFailuresPause` | backend/app/services/webhooks.py:601-616 | In every run five deliveries of a subscription that failed for good, with no success between and nobody letting it go on, leave it paused. |
| `Lease.PausedOnlyByFive` | backend/app/services/webhooks.py:601-616 | Where nobody switches it, the failure count is that streak, and it is paused exactly when the streak has been five. |
| `Lease.StaleLeaseComesBackIff` | backend/app/services/webhooks.py:621-632 | Where redeliveries come after the leases in flight, a failed attempt puts an older lease back on the row exactly when its wait is zero and it is charged at the instant that lease ran out. |
| `Lease.ZeroBackoffLetsAStaleWriteThrough` | backend/app/services/webhooks.py:621-632 | The run without redelivery, with one wait of zero, that ends with the write of a superseded claim let through. |
| `Lease.RedeliveryAtTheLeaseLetsAStaleWriteThrough` | backend/app/services/webhooks.py:635-644 | The run that ends so after a redelivery at the instant the lease runs out. |
| `Lease.SameInstantLetsAStaleWriteThrough` | backend/app/services/webhooks.py:635-644 | The run that ends so after a redelivery and a new claim at the instant the first was made. |
| `FanOut.TakenExact` | backend/app/services/webhooks.py:278-321 | A pass takes, in id order, every unseen marker of the organization up to the last one taken, and none too young. |
| `FanOut.LeftForAReason` | backend/app/services/webhooks.py:278-321 | A pass leaves an unseen marker only behind a batch of 500 or, where it waits, behind a marker less than five seconds old. |
| `FanOut.StepSound` | backend/app/services/webhooks.py:254-321 | Every insert, commit, rollback, clock step, subscription and pass keeps cursors moving on and deliveries owed and single, however long transactions stay open. |
| `FanOut.NeverTwice` | backend/app/services/webhooks.py:254-321 | In every run whatever, no marker is delivered to a subscription twice, and none that is not its organization's, wanted, and between its start and its cursor. |
| `FanOut.NothingFromBefore` | backend/app/api/v1/endpoints/webhooks.py:125-140 | In every run a subscription is never told about a marker committed before it was made. |
| `FanOut.FedWhileLive` | backend/app/services/webhooks.py:254-321 | And is told about something only by a pass of its own while it is switched on. |
| `FanOut.PassedOverIff` | backend/app/services/webhooks.py:278-321 | A pass moves the cursor past the marker of an open transaction exactly when it takes a later marker. |
| `FanOut.DeliveredIffCommittedWhenPassed` | backend/app/services/webhooks.py:105-113 | In every run whatever, a wanted marker between start and cursor has its delivery exactly when it was committed by the pass that moved the cursor past it. |
| `FanOut.StepKeeps` | backend/app/services/webhooks.py:254-321 | Whatever other transactions do, every step keeps a marker whose own transaction is timely ahead of the cursors while open and delivered once owed. |
| `FanOut.ExactlyOnceAndLossless` | backend/app/services/webhooks.py:105-113 | In every run a wanted marker between a subscription's start and its cursor, whose own transaction committed within the grace, has exactly one delivery, there are none that are not owed, and while that transaction is open no such cursor has passed it. |
| `FanOut.PassMakesLargerMarkers` | backend/app/services/webhooks.py:278-321 | A pass only appends, beyond every marker the subscription already has. |
| `FanOut.LateCommitIsLost` | backend/app/services/webhooks.py:105-113 | The run in which a marker committed after the grace is owed and never made. |
| `Pipeline.PassInOrder` | backend/app/services/webhooks.py:278-321 | The deliveries a pass adds are fresh and, for every subscription, beyond every marker it has in the delivery table. |
| `Pipeline.TablesRun` | backend/app/services/webhooks.py:395-414 | The deliveries of a run of both are a run of the delivery protocol, so all that holds of every such run holds here. |
| `Pipeline.ChangesArriveInOrder` | backend/app/services/webhooks.py:395-462 | In every run of feed and deliveries together: of two changes to one row for one subscription, with the later claimed, the earlier is pending exactly when it was redelivered after that and has not ended since. Nothing is assumed of fan-out or of other rows. |
| `Pipeline.NothingEarlierIsMissing` | backend/app/services/webhooks.py:254-462 | In every run, once a delivery is claimed, an earlier wanted change to its row since the subscription began, whose own transaction was timely, has a delivery, pending only if redelivered since. |
| `Webhooks.ChosenIsClaimable` | backend/app/services/webhooks.py:417-462 | The batch claim_due takes is one the protocol allows: due, not held up, none twice, at most fifty. |
| `Webhooks.NothingDueIsOvertaken` | backend/app/services/webhooks.py:417-462 | A due delivery is left out only when fifty were taken that came due earlier, or at the same instant with a smaller id. |
| `Webhooks.DeliveryTable.ClaimDue` | backend/app/services/webhooks.py:417-462 | The method is that protocol step. |
| `Webhooks.DeliveryTable.Record` | backend/app/services/webhooks.py:551-618 | The method is the read and the write step, or the read alone when the subscription is gone; it reports true exactly when it changed the row and logged an attempt. |
| `Webhooks.DeliveryTable.Redeliver` | backend/app/services/webhooks.py:635-644 | Pending again, from nothing, now. |
| `Webhooks.PassAllKeeps` | backend/app/services/webhooks.py:254-321 | One transaction over all subscriptions keeps a timely marker from being lost. |
| `Webhooks.ChangeFeed.Settled` | backend/app/services/webhooks.py:278-296 | The loop with its early stop takes exactly the trusted front of the batch. |
| `Webhooks.ChangeFeed.FanOut` | backend/app/services/webhooks.py:254-321 | The method is one pass over each subscription; the count is the deliveries made. |
| `Scheduler.DailyMoments` | backend/app/cron/scheduled.py:123-136 | The loop over local dates equals its specification. |
| `Scheduler.DailyExact` | backend/app/cron/scheduled.py:123-136 | A daily job's moments in an interval are exactly the instants of its minute on any local date, after the one end and up to the other. |
| `Scheduler.MarksExact` | backend/app/cron/scheduled.py:139-153 | An interval job has at most one moment in an advance, the last grid mark in it. It misses a mark exactly when rounding put its own past the end and the one before lies in the interval, which from 1970 on never happens. |
| `Scheduler.MarkBefore1970IsMissed` | backend/app/cron/scheduled.py:146-151 | The instant before 1970 at which a mark is missed. |
| `Scheduler.DueExact` | backend/app/cron/scheduled.py:191-198 | The due list holds exactly the firings of the interval, each once, in (moment, rank) order. |
| `Scheduler.WhatFires` | backend/app/cron/scheduled.py:156-188 | What is due is the ledger at 23:00, the purges at 03:00, 03:30 and 03:45, the overstay notice at the last mark of 300 seconds, and webhooks at the last mark of their interval only with the change feed on. |
| `Scheduler.DailySplits` | backend/app/cron/scheduled.py:191-223 | Splitting an advance in two gives the same daily runs in the same order. |
| `Scheduler.AdvancesCompose` | backend/app/cron/scheduled.py:191-223 | So does any sequence of advances: each daily moment runs exactly once. |
| `Scheduler.HostClock.AdvanceTo` | backend/app/core/clock.py:37-53 | Moves forward or stays; going back is refused and changes nothing. |
| `Scheduler.Advance` | backend/app/cron/scheduled.py:201-223 | Runs the due list with the clock at each job's own moment; no move on the way is refused. |
| `Locator.TryOverrides` | backend/app/services/location_resolver.py:81-100 | The first tier settles each person as their own override says. |
| `Locator.TryDays` | backend/app/services/location_resolver.py:102-167 | The second tier, with substitute and lead sharing rows, settles exactly those whom a running day of today or yesterday places, each by the first such day on the board: its room for who covers it, leave or code and room for who leads it. |
| `Locator.TrySlots` | backend/app/services/location_resolver.py:169-250 | The third tier, sorted across everybody, settles exactly those with a running slot date not yet written, each by the earliest of them and their leave on its date. |
| `Locator.TryLeave` | backend/app/services/location_resolver.py:252-256 | Leave settles whoever is left. |
| `Locator.DetermineStates` | backend/app/services/location_resolver.py:57-269 | Each person asked about, and nobody else, is told what their override says; or else what the first running day that places them says; or else what their earliest running slot date not yet written says; or else their leave today; or else their station. |
| `Locator.AskedTogetherAsAlone` | backend/app/services/location_resolver.py:57-269 | Asking about one person alone gives the answer they get in any list, and it is that answer. |
| `Idempotency.StepKeepsIff` | backend/app/core/idempotency.py:402-440 | A step keeps the record of an effect inside its window exactly when it is not a settling that drops that very claim. |
| `Idempotency.StepKeepsKeyIff` | backend/app/core/idempotency.py:402-440 | And keeps everything under one key remembered and a window apart exactly when it drops no claim of that key, whatever happens to others. |
| `Idempotency.AtMostOnceIff` | backend/app/core/idempotency.py:186-241 | From the moment something is done under a key, after any history: no request that could come next at any point of a run would do a second thing under it inside the window, exactly when no settling in the run drops that claim. |
| `Idempotency.AtMostOncePerWindow` | backend/app/core/idempotency.py:186-241 | Then what is done under the key later was claimed a whole retention window after it. |
| `Idempotency.AtMostOnceUnderKey` | backend/app/core/idempotency.py:186-241 | In every run in which no claim of a key is dropped, all effects under it are a window apart; other keys do not matter. |
| `Idempotency.InTurnNeverRepeats` | backend/app/core/idempotency.py:347-357 | There is no such drop where the key's own owners settle or die before its next claim and none that committed answers with a response that is not kept. |
| `Idempotency.RetriesAreAnswered` | backend/app/core/idempotency.py:268-283 | With no such drop, until the window ends a retry gets the stored response or 409, a different request under the key gets 422, and neither changes anything. |
| `Idempotency.RecordStaysIff` | backend/app/core/idempotency.py:402-440 | Until it expires, a step leaves a record as it is exactly when it is not a settling under the same hash with another response to keep or none to. |
| `Idempotency.FirstAnswerStands` | backend/app/core/idempotency.py:268-283 | Over any run without such a settling a record answers every request the same until it expires. |
| `Idempotency.NeverOverwrittenInTurn` | backend/app/core/idempotency.py:402-440 | There is none where requests under the key take turns and the record's owner has settled or died. |
| `Idempotency.CommittedClaimIsKeptIff` | backend/app/core/idempotency.py:402-440 | After settling, a retry is replayed exactly when a response went out whole with a status from 200 to 299, or from 400 to 499 other than 401, 403 and 429; otherwise it runs. |
| `Idempotency.DropsNoSuccess` | backend/app/core/idempotency.py:176-179 | A settling that drops a claim is of no response between 200 and 299, and of none between 400 and 499 but 401, 403 and 429. |
| `Idempotency.SuccessesAreNotRepeated` | backend/app/core/idempotency.py:402-440 | Where requests under a key take turns and whatever is settled answered between 200 and 299, nothing is done twice under it inside its window. |
| `Idempotency.MalformedIff` | backend/app/core/idempotency.py:172-173 | A key is refused exactly when it is empty, has over 255 characters, or one outside printable ASCII. |
| `Idempotency.ClaimedIff` | backend/app/core/idempotency.py:244-283 | A valid key is claimed exactly when it has no record or one a whole retention window old; 409 means its own request without a response, 422 another's. |
| `Idempotency.LateOwnerDropsAnothersClaim` | backend/app/core/idempotency.py:417-439 | Two effects at one instant when owners do not take turns. |
| `Idempotency.UnkeptAnswerRunsAgain` | backend/app/core/idempotency.py:402-440 | Two effects when a committed request answers 500. |
| `Idempotency.PurgeChangesNoAnswer` | backend/app/core/idempotency.py:286-296 | Purging changes the answer to no request. |
| `Idempotency.PurgeBeforeSettlingIff` | backend/app/core/idempotency.py:286-296 | A purge just before a settling changes no answer after it, for any key and hash, exactly when the settling does not keep a response over a record old enough to be purged. |
| `Idempotency.PurgeChangesNoLaterAnswer` | backend/app/core/idempotency.py:286-296 | Nor any later answer or effect, over any run with no such settling. |
| `Idempotency.PurgeChangesNothingUnderKey` | backend/app/core/idempotency.py:286-296 | For one key, no such settling under it is enough: its answers and effects are the same with the purge and without. |
| `Idempotency.PurgeCanChangeALaterAnswer` | backend/app/core/idempotency.py:402-440 | The refusal that is kept only if the purge came first. |
| `Idempotency.RecordTable.Claim` | backend/app/core/idempotency.py:186-241 | Answers at most once in a request; claims exactly a valid key with no live record; nothing changes otherwise. |
| `Idempotency.RecordTable.Settle` | backend/app/core/idempotency.py:402-440 | The method is the settling step; a claim of its own without a response keeps what is sent for those statuses and is deleted for every other. |
| `Idempotency.RecordTable.PurgeExpired` | backend/app/core/idempotency.py:286-296 | The method is the purging step; the count is the records gone. |

## Left out

- Recurrence rules: whether a rule lands on a date is an arbitrary predicate; the grammar of sections 3.3.10 and 3.8.5.3 of RFC 5545 and its expansion are not modelled.
- Time zones: a zone is any pair of functions in which each local date's moments come later than the one before's and fall on that date.
- Concurrency inside the database: row locks, savepoints, unique-key races and the exclusion constraint's own mechanism. A transaction is one step; the branches that answer a lost race are not modelled.
- Lease: `backoff` is an arbitrary function of the event and the attempt number, so its ceilings and hashing are not modelled; all workers read one clock, where the code measures a pass on a real-time counter.
- Lease.RecordWritesIffCurrent: for a delivery with waits above zero and redeliveries after the leases in flight; `Lease.StaleUpdateIff` is the statement for every run.
- Lease.NeverSentTwiceAtOnce: for a delivery whose redeliveries come after the leases in flight; `Lease.SecondClaimOnlyIf` and `Lease.DueInFlightIsSentTwice` are the statements for every run.
- Lease.RowsArriveInOrder: takes fan-out in marker order from outside; `Pipeline.ChangesArriveInOrder` does not.
- FanOut.ExactlyOnceAndLossless: for a marker whose own transaction commits within the grace, or is not open while fan-out runs where it does not wait; `FanOut.DeliveredIffCommittedWhenPassed` is the statement for every run. Marker ids follow their timestamps in all of them.
- Webhook signing, URL vetting, the HTTP exchange and response excerpts: a send is an outcome that arrives within the attempt deadline. Deleting a delivery or a subscription is not a step; `record` does nothing when the subscription is not there.
- Idempotency: request hashing and message handling, operations that answer a retry from their own row, and operations whose response is a secret.
- Conflicts: the member, lead and unmet-requirement sides of the report, its grouping by resource and its final ordering.
- Ledger: `materialize_horizon` for one cycle only, the reports of taken windows and unmet requirements, `missed_ledger_dates`, rows refused because another instance wrote them first, and columns of a row that decide nothing.
- Booking.AlwaysSafe: bookings and cancellations; edits to slots, generated days and resources go through checks modelled in `RuleChecks.dfy` and are not part of the run.
- Booking: the route's own key and external reference, scopes and roles; equal times and quantities below one are refused by the request schema.
- Accounts.EveryNeedIsAccountedFor: for a table whose requirement rows are distinct and ask for one or more, and assignments of their own kind, which saving a requirement and the booking route see to.
- Walk: ids of the rows are the next free number, and the catalogue is a list in the order the query returns it.
- Organization scoping, audit, authentication, imports and exports, the websocket layer, the frontend and the client libraries.
