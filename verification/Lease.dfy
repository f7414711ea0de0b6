/** Webhook delivery as a protocol (backend/app/services/webhooks.py: claim_due, run_pass, send,
    record, backoff, redeliver): any number of workers claim, send, read, write and crash in any
    interleaving. Times are microseconds on one clock. */
module Lease {
  import opened Sequences

  const MAX_ATTEMPTS: int := 8
  const PAUSE_AFTER: int := 5
  const SEND_BATCH: int := 50
  const CLAIM_LEASE: int := 60_000_000
  const LEASE_MARGIN: int := 10_000_000
  const ATTEMPT_DEADLINE: int := 15_000_000

  /** The latest age of a pass at which BeginSend is enabled. */
  const LAST_START: int := CLAIM_LEASE - LEASE_MARGIN - ATTEMPT_DEADLINE

  datatype Status = Pending | Succeeded | Failed

  /** One event for one subscription. generation counts its redeliveries. */
  datatype Delivery = Delivery(sub: int, entity: int, marker: int, event: int, status: Status,
                               attempts: int, next: Option<int>, generation: int)

  /** How far the pass that made a claim has come with it. Deciding is between record's read of the
      row and its update: the count and the time it read are what it will write from. */
  datatype Phase = Waiting | Sending(since: int) | Answered(ok: bool) | Deciding(ok: bool, count: int, at: int) | Over

  /** lease is the value put into next_attempt_at; generation and count are copied from the row. */
  datatype Claim = Claim(delivery: int, lease: int, started: int, generation: int, count: int, phase: Phase)

  datatype AttemptRow = AttemptRow(claim: int, delivery: int, generation: int, at: int, ok: bool)

  datatype Sub = Sub(active: bool, paused: bool, failures: int)

  datatype State = State(now: int, deliveries: seq<Delivery>, claims: seq<Claim>, log: seq<AttemptRow>, subs: map<int, Sub>)

  /** The wait after a number of failed attempts, by event: a draw from zero up to a ceiling. */
  type Backoff = (int, int) -> int

  // ---------------------------------------------------------------- steps

  /** An earlier change to the same row, for the same subscription, is still on its way. */
  predicate HeldUp(s: State, d: int)
    requires 0 <= d < |s.deliveries|
  {
    exists e :: 0 <= e < |s.deliveries| && Behind(s, d, e) && s.deliveries[e].status.Pending?
  }

  predicate Sendable(s: State, sub: int) {
    sub in s.subs && s.subs[sub].active && !s.subs[sub].paused
  }

  predicate Claimable(s: State, d: int) {
    && 0 <= d < |s.deliveries| && s.deliveries[d].status.Pending?
    && s.deliveries[d].next.Some? && s.deliveries[d].next.value <= s.now
    && Sendable(s, s.deliveries[d].sub) && !HeldUp(s, d)
  }

  function ClaimOne(s: State, d: int, started: int): State
    requires 0 <= d < |s.deliveries|
  {
    var row := s.deliveries[d];
    s.(deliveries := s.deliveries[d := row.(next := Some(s.now + CLAIM_LEASE))],
       claims := s.claims + [Claim(d, s.now + CLAIM_LEASE, started, row.generation, row.attempts, Waiting)])
  }

  function ClaimAll(s: State, chosen: seq<int>, started: int): (after: State)
    requires forall i :: 0 <= i < |chosen| ==> 0 <= chosen[i] < |s.deliveries|
    ensures |after.deliveries| == |s.deliveries|
  {
    if chosen == [] then s
    else
      ClaimOne(ClaimAll(s, chosen[..|chosen| - 1], started), chosen[|chosen| - 1], started)
  }

  function InPhase(s: State, c: int, phase: Phase): State
    requires 0 <= c < |s.claims|
  {
    s.(claims := s.claims[c := s.claims[c].(phase := phase)])
  }

  /** The condition of record's update: still pending, still under this lease, still at the count read. */
  predicate UpdateMatches(s: State, c: int)
    requires 0 <= c < |s.claims| && s.claims[c].phase.Deciding? && 0 <= s.claims[c].delivery < |s.deliveries|
  {
    var row := s.deliveries[s.claims[c].delivery];
    row.status.Pending? && row.next == Some(s.claims[c].lease) && row.attempts == s.claims[c].phase.count
  }

  /** record's read: the count and the time it will write from. Nothing is recorded for a subscription that is gone. */
  function ReadFor(s: State, c: int): State
    requires HasClaim(s, c) && s.claims[c].phase.Answered?
  {
    var row := s.deliveries[s.claims[c].delivery];
    InPhase(s, c, if row.sub in s.subs then Deciding(s.claims[c].phase.ok, row.attempts, s.now) else Over)
  }

  function Charged(row: Delivery, ok: bool, count: int, at: int, backoff: Backoff): Delivery {
    if ok then row.(status := Succeeded, next := None, attempts := count + 1)
    else if count + 1 >= MAX_ATTEMPTS then row.(status := Failed, next := None, attempts := count + 1)
    else row.(next := Some(at + backoff(row.event, count + 1)), attempts := count + 1)
  }

  /** One success resets the count of deliveries that failed for good; five in a row pause. */
  function SubAfter(sub: Sub, ok: bool, count: int): Sub {
    if ok then sub.(failures := 0)
    else if count + 1 >= MAX_ATTEMPTS then
      sub.(failures := sub.failures + 1, paused := sub.paused || sub.failures + 1 >= PAUSE_AFTER)
    else sub
  }

  function Written(s: State, c: int, backoff: Backoff): State
    requires 0 <= c < |s.claims| && s.claims[c].phase.Deciding? && 0 <= s.claims[c].delivery < |s.deliveries|
  {
    var over := InPhase(s, c, Over);
    if !UpdateMatches(s, c) then over
    else
      var Deciding(ok, count, at) := s.claims[c].phase;
      var d := s.claims[c].delivery;
      var row := s.deliveries[d];
      over.(deliveries := s.deliveries[d := Charged(row, ok, count, at, backoff)],
            log := s.log + [AttemptRow(c, d, row.generation, at, ok)],
            subs := if row.sub in s.subs then s.subs[row.sub := SubAfter(s.subs[row.sub], ok, count)] else s.subs)
  }

  function Redelivered(s: State, d: int): State
    requires 0 <= d < |s.deliveries|
  {
    var row := s.deliveries[d];
    s.(deliveries := s.deliveries[d := row.(status := Pending, attempts := 0, next := Some(s.now), generation := row.generation + 1)])
  }

  datatype Step =
    | Tick(elapsed: int)
    | ClaimDue(chosen: seq<int>, started: int)
    | BeginSend(c: int)
    | EndSend(c: int, ok: bool)
    | ReadRow(c: int)
    | WriteRow(c: int)
    | Crash(c: int)
    | FanOut(made: seq<Delivery>)
    | SwitchSub(sub: int, active: bool, paused: bool)
    | Redeliver(d: int)

  predicate Fresh(row: Delivery, now: int) {
    row.status.Pending? && row.attempts == 0 && row.next == Some(now) && row.generation == 0
  }

  predicate HasClaim(s: State, c: int) {
    0 <= c < |s.claims| && 0 <= s.claims[c].delivery < |s.deliveries|
  }

  predicate Enabled(s: State, step: Step) {
    match step
    // An attempt is given up on at its deadline, so time does not pass it while the attempt lasts.
    case Tick(elapsed) => 0 <= elapsed && forall c :: 0 <= c < |s.claims| && s.claims[c].phase.Sending? ==>
                            s.now + elapsed <= s.claims[c].phase.since + ATTEMPT_DEADLINE
    case ClaimDue(chosen, started) =>
      && |chosen| <= SEND_BATCH && started <= s.now && (forall i :: 0 <= i < |chosen| ==> Claimable(s, chosen[i]))
      && (forall i, j :: 0 <= i < j < |chosen| ==> chosen[i] != chosen[j])
    case BeginSend(c) => HasClaim(s, c) && s.claims[c].phase.Waiting? && s.now - s.claims[c].started <= LAST_START
    case EndSend(c, _) => HasClaim(s, c) && s.claims[c].phase.Sending?
    case ReadRow(c) => HasClaim(s, c) && s.claims[c].phase.Answered?
    case WriteRow(c) => HasClaim(s, c) && s.claims[c].phase.Deciding?
    case Crash(c) => HasClaim(s, c)
    case FanOut(made) => forall row :: row in made ==> Fresh(row, s.now)
    case SwitchSub(_, _, _) => true
    case Redeliver(d) => 0 <= d < |s.deliveries|
  }

  function Next(s: State, step: Step, backoff: Backoff): State
    requires Enabled(s, step)
  {
    match step
    case Tick(elapsed) => s.(now := s.now + elapsed)
    case ClaimDue(chosen, started) => ClaimAll(s, chosen, started)
    case BeginSend(c) => InPhase(s, c, Sending(s.now))
    case EndSend(c, ok) => InPhase(s, c, Answered(ok))
    case ReadRow(c) => ReadFor(s, c)
    case WriteRow(c) => Written(s, c, backoff)
    case Crash(c) => InPhase(s, c, Over)
    case FanOut(made) => s.(deliveries := s.deliveries + made)
    case SwitchSub(sub, active, paused) =>
      s.(subs := s.subs[sub := Sub(active, paused, if sub in s.subs && paused then s.subs[sub].failures else 0)])
    case Redeliver(d) => Redelivered(s, d)
  }

  // ---------------------------------------------------------------- what every run keeps

  /** When the claim was made. */
  function MadeAt(c: Claim): int {
    c.lease - CLAIM_LEASE
  }

  ghost predicate ClaimsTimed(s: State) {
    forall c :: 0 <= c < |s.claims| ==>
      && HasClaim(s, c) && s.claims[c].started <= MadeAt(s.claims[c]) <= s.now
      && s.claims[c].generation <= s.deliveries[s.claims[c].delivery].generation
      && match s.claims[c].phase
         case Sending(since) => MadeAt(s.claims[c]) <= since && since - s.claims[c].started <= LAST_START && since <= s.now <= since + ATTEMPT_DEADLINE
         case Deciding(_, _, at) => MadeAt(s.claims[c]) <= at <= s.now
         case _ => true
  }

  function RowsFor(log: seq<AttemptRow>, d: int, generation: int): int {
    if log == [] then 0
    else
      var last := log[|log| - 1];
      RowsFor(log[..|log| - 1], d, generation) + if last.delivery == d && last.generation == generation then 1 else 0
  }

  /** Every attempt row is the one row of a finished claim on its delivery. */
  ghost predicate LogSound(s: State) {
    && (forall k :: 0 <= k < |s.log| ==>
          && HasClaim(s, s.log[k].claim) && s.claims[s.log[k].claim].phase.Over?
          && s.log[k].delivery == s.claims[s.log[k].claim].delivery
          && s.claims[s.log[k].claim].generation <= s.log[k].generation <= s.deliveries[s.log[k].delivery].generation)
    && (forall k, m :: 0 <= k < m < |s.log| ==> s.log[k].claim != s.log[m].claim)
  }

  ghost predicate RowsCounted(s: State) {
    forall d :: 0 <= d < |s.deliveries| ==>
      var row := s.deliveries[d];
      && row.attempts == RowsFor(s.log, d, row.generation)
      && 0 <= row.attempts <= MAX_ATTEMPTS && 0 <= row.generation
      && (row.status.Pending? <==> row.next.Some?)
      && (row.status.Pending? ==> row.attempts < MAX_ATTEMPTS)
  }

  ghost predicate Sound(s: State) {
    ClaimsTimed(s) && LogSound(s) && RowsCounted(s)
  }

  lemma {:induction false} RowsForNew(log: seq<AttemptRow>, d: int, generation: int)
    requires forall k :: 0 <= k < |log| ==> log[k].delivery != d || log[k].generation != generation
    ensures RowsFor(log, d, generation) == 0
  {
    if log != [] {
      RowsForNew(log[..|log| - 1], d, generation);
    }
  }

  lemma RowsForOneMore(log: seq<AttemptRow>, row: AttemptRow, d: int, generation: int)
    ensures RowsFor(log + [row], d, generation)
         == RowsFor(log, d, generation) + if row.delivery == d && row.generation == generation then 1 else 0
  {
    assert (log + [row])[..|log|] == log;
  }

  /** Phases may move; nothing else about the claims or the rows does. */
  lemma PhaseSound(s: State, c: int, phase: Phase)
    requires Sound(s) && HasClaim(s, c)
    requires s.claims[c].phase.Over? ==> phase.Over?
    requires phase.Sending? ==> phase.since == s.now && s.now - s.claims[c].started <= LAST_START
    requires phase.Deciding? ==> phase.at == s.now
    ensures Sound(InPhase(s, c, phase))
  {
    var after := InPhase(s, c, phase);
    assert forall j :: 0 <= j < |s.claims| ==> after.claims[j].(phase := s.claims[j].phase) == s.claims[j];
  }

  lemma FanOutSound(s: State, made: seq<Delivery>)
    requires Sound(s) && Enabled(s, FanOut(made))
    ensures Sound(s.(deliveries := s.deliveries + made))
  {
    var after := s.(deliveries := s.deliveries + made);
    assert forall c :: HasClaim(s, c) ==> HasClaim(after, c);
    assert forall d :: 0 <= d < |s.deliveries| ==> after.deliveries[d] == s.deliveries[d];
    forall d | |s.deliveries| <= d < |after.deliveries| ensures after.deliveries[d] in made && RowsFor(s.log, d, 0) == 0 {
      assert after.deliveries[d] == made[d - |s.deliveries|];
      RowsForNew(s.log, d, 0);
    }
  }

  lemma ClaimOneSound(s: State, d: int, started: int)
    requires Sound(s) && 0 <= d < |s.deliveries| && started <= s.now && s.deliveries[d].status.Pending?
    ensures Sound(ClaimOne(s, d, started))
  {
    var after := ClaimOne(s, d, started);
    assert forall k :: 0 <= k < |s.claims| ==> after.claims[k] == s.claims[k] && HasClaim(s, k);
    assert forall x :: 0 <= x < |after.deliveries| ==> after.deliveries[x].(next := s.deliveries[x].next) == s.deliveries[x];
  }

  /** What a claim step leaves: the chosen rows leased, the others alone, a claim for each at the end. */
  lemma ClaimAllExact(s: State, chosen: seq<int>, started: int)
    requires forall i :: 0 <= i < |chosen| ==> 0 <= chosen[i] < |s.deliveries|
    ensures var after := ClaimAll(s, chosen, started);
            && after == s.(deliveries := after.deliveries, claims := after.claims)
            && |after.claims| == |s.claims| + |chosen|
            && (forall c :: 0 <= c < |s.claims| ==> after.claims[c] == s.claims[c])
            && (forall n :: 0 <= n < |chosen| ==>
                  && after.claims[|s.claims| + n].delivery == chosen[n]
                  && after.claims[|s.claims| + n].generation == s.deliveries[chosen[n]].generation
                  && after.claims[|s.claims| + n].lease == s.now + CLAIM_LEASE)
            && (forall d :: 0 <= d < |s.deliveries| ==>
                  after.deliveries[d] == if d in chosen then s.deliveries[d].(next := Some(s.now + CLAIM_LEASE)) else s.deliveries[d])
  {
    ClaimAllRows(s, chosen, started);
    ClaimAllClaims(s, chosen, started);
  }

  lemma {:induction false} ClaimAllRows(s: State, chosen: seq<int>, started: int)
    requires forall i :: 0 <= i < |chosen| ==> 0 <= chosen[i] < |s.deliveries|
    ensures var after := ClaimAll(s, chosen, started);
            && after == s.(deliveries := after.deliveries, claims := after.claims)
            && (forall d :: 0 <= d < |s.deliveries| ==>
                  after.deliveries[d] == if d in chosen then s.deliveries[d].(next := Some(s.now + CLAIM_LEASE)) else s.deliveries[d])
  {
    if chosen != [] {
      var front, last := chosen[..|chosen| - 1], chosen[|chosen| - 1];
      ClaimAllRows(s, front, started);
      assert forall d :: d in chosen <==> d in front || d == last;
    }
  }

  lemma {:induction false} ClaimAllClaims(s: State, chosen: seq<int>, started: int)
    requires forall i :: 0 <= i < |chosen| ==> 0 <= chosen[i] < |s.deliveries|
    ensures var claims := ClaimAll(s, chosen, started).claims;
            && |claims| == |s.claims| + |chosen|
            && (forall c :: 0 <= c < |s.claims| ==> claims[c] == s.claims[c])
            && (forall n :: 0 <= n < |chosen| ==>
                  && claims[|s.claims| + n].delivery == chosen[n]
                  && claims[|s.claims| + n].generation == s.deliveries[chosen[n]].generation
                  && claims[|s.claims| + n].lease == s.now + CLAIM_LEASE)
  {
    if chosen != [] {
      var front := chosen[..|chosen| - 1];
      ClaimAllClaims(s, front, started);
      ClaimAllRows(s, front, started);
      var before, claims := ClaimAll(s, front, started), ClaimAll(s, chosen, started).claims;
      forall n | 0 <= n < |chosen|
        ensures claims[|s.claims| + n].delivery == chosen[n] && claims[|s.claims| + n].lease == s.now + CLAIM_LEASE
        ensures claims[|s.claims| + n].generation == s.deliveries[chosen[n]].generation
      {
        if n < |front| {
          assert front[n] == chosen[n] && claims[|s.claims| + n] == before.claims[|s.claims| + n];
        } else {
          assert before.deliveries[chosen[n]].generation == s.deliveries[chosen[n]].generation;
        }
      }
    }
  }

  lemma {:induction false} ClaimAllSound(s: State, chosen: seq<int>, started: int)
    requires Sound(s) && started <= s.now
    requires forall i :: 0 <= i < |chosen| ==> 0 <= chosen[i] < |s.deliveries| && s.deliveries[chosen[i]].status.Pending?
    ensures Sound(ClaimAll(s, chosen, started))
  {
    if chosen != [] {
      var front := chosen[..|chosen| - 1];
      ClaimAllSound(s, front, started);
      ClaimAllExact(s, front, started);
      ClaimOneSound(ClaimAll(s, front, started), chosen[|chosen| - 1], started);
    }
  }

  lemma WriteSound(s: State, c: int, backoff: Backoff)
    requires Sound(s) && HasClaim(s, c) && s.claims[c].phase.Deciding? && UpdateMatches(s, c)
    ensures Sound(Written(s, c, backoff))
  {
    WriteLogs(s, c, backoff);
    var after := Written(s, c, backoff);
    assert forall j :: 0 <= j < |s.claims| ==> after.claims[j].(phase := s.claims[j].phase) == s.claims[j];
    assert forall d :: 0 <= d < |s.deliveries| ==> after.deliveries[d].generation == s.deliveries[d].generation;
  }

  lemma WriteLogs(s: State, c: int, backoff: Backoff)
    requires ClaimsTimed(s) && LogSound(s) && HasClaim(s, c) && s.claims[c].phase.Deciding? && UpdateMatches(s, c)
    ensures LogSound(Written(s, c, backoff))
  {
    var after := Written(s, c, backoff);
    forall k | 0 <= k < |s.log|
      ensures after.log[k] == s.log[k] && s.log[k].claim != c && HasClaim(after, s.log[k].claim)
      ensures after.claims[s.log[k].claim] == s.claims[s.log[k].claim]
    {
      assert HasClaim(s, s.log[k].claim);
    }
    assert forall d :: 0 <= d < |s.deliveries| ==> after.deliveries[d].generation == s.deliveries[d].generation;
  }

  lemma RedeliverSound(s: State, d: int)
    requires Sound(s) && 0 <= d < |s.deliveries|
    ensures Sound(Redelivered(s, d))
  {
    RowsForNew(s.log, d, s.deliveries[d].generation + 1);
  }

  /** No condition on the waits, and a redelivery whenever it comes. */
  lemma StepSound(s: State, step: Step, backoff: Backoff)
    requires Sound(s) && Enabled(s, step)
    ensures Sound(Next(s, step, backoff))
  {
    match step
    case Tick(elapsed) =>
    case ClaimDue(chosen, started) => ClaimAllSound(s, chosen, started);
    case BeginSend(c) => PhaseSound(s, c, Sending(s.now));
    case EndSend(c, ok) => PhaseSound(s, c, Answered(ok));
    case ReadRow(c) => PhaseSound(s, c, ReadFor(s, c).claims[c].phase);
    case WriteRow(c) =>
      if UpdateMatches(s, c) {
        WriteSound(s, c, backoff);
      } else {
        PhaseSound(s, c, Over);
      }
    case Crash(c) => PhaseSound(s, c, Over);
    case FanOut(made) => FanOutSound(s, made);
    case SwitchSub(sub, active, paused) =>
    case Redeliver(d) => RedeliverSound(s, d);
  }

  function Start(now: int, subs: map<int, Sub>): State {
    State(now, [], [], [], subs)
  }

  /** trace is a run: it starts with nothing claimed, and each state is a step from the one before. */
  ghost predicate Run(trace: seq<State>, steps: seq<Step>, backoff: Backoff) {
    && |trace| == |steps| + 1 && trace[0] == Start(trace[0].now, trace[0].subs)
    && forall k :: 0 <= k < |steps| ==> Enabled(trace[k], steps[k]) && trace[k + 1] == Next(trace[k], steps[k], backoff)
  }

  lemma {:induction false} RunSound(trace: seq<State>, steps: seq<Step>, backoff: Backoff, k: nat)
    requires Run(trace, steps, backoff) && k < |trace|
    ensures Sound(trace[k])
  {
    if k > 0 {
      RunSound(trace, steps, backoff, k - 1);
      StepSound(trace[k - 1], steps[k - 1], backoff);
    }
  }

  /** In every run attempt_count is the number of attempt rows since the last redelivery, never above
      eight, and every row was written by a claim of its own. */
  lemma AttemptsAreCounted(trace: seq<State>, steps: seq<Step>, backoff: Backoff, k: nat)
    requires Run(trace, steps, backoff) && k < |trace|
    ensures forall d :: 0 <= d < |trace[k].deliveries| ==>
              trace[k].deliveries[d].attempts == RowsFor(trace[k].log, d, trace[k].deliveries[d].generation) <= 8
    ensures forall i, j :: 0 <= i < j < |trace[k].log| ==> trace[k].log[i].claim != trace[k].log[j].claim
    ensures forall i :: 0 <= i < |trace[k].log| ==>
              0 <= trace[k].log[i].claim < |trace[k].claims| && trace[k].log[i].delivery == trace[k].claims[trace[k].log[i].claim].delivery
  {
    RunSound(trace, steps, backoff, k);
  }

  /** In every run an attempt is under way only inside its own lease, with the margin to spare. */
  lemma AttemptsInsideLease(trace: seq<State>, steps: seq<Step>, backoff: Backoff, k: nat, c: int)
    requires Run(trace, steps, backoff) && k < |trace|
    requires HasClaim(trace[k], c) && trace[k].claims[c].phase.Sending?
    ensures MadeAt(trace[k].claims[c]) <= trace[k].claims[c].phase.since <= trace[k].now <= trace[k].claims[c].lease - 10_000_000
    ensures trace[k].now - trace[k].claims[c].phase.since <= 15_000_000
  {
    RunSound(trace, steps, backoff, k);
  }

  // ---------------------------------------------------------------- what the statuses say

  predicate IsOf(row: AttemptRow, d: int, generation: int) {
    row.delivery == d && row.generation == generation
  }

  /** A success is the last attempt of a delivery, and the delivery has succeeded exactly when there is one. It has
      failed exactly when there are eight and no success. */
  ghost predicate StatusRight(s: State, d: int)
    requires 0 <= d < |s.deliveries|
  {
    var row := s.deliveries[d];
    && (forall i, j :: 0 <= i < j < |s.log| && IsOf(s.log[i], d, row.generation) && IsOf(s.log[j], d, row.generation) ==> !s.log[i].ok)
    && (row.status.Succeeded? <==> exists i :: 0 <= i < |s.log| && IsOf(s.log[i], d, row.generation) && s.log[i].ok)
    && (row.status.Failed? <==> RowsFor(s.log, d, row.generation) == 8 && forall i :: 0 <= i < |s.log| && IsOf(s.log[i], d, row.generation) ==> !s.log[i].ok)
  }

  ghost predicate StatusesRight(s: State) {
    forall d :: 0 <= d < |s.deliveries| ==> StatusRight(s, d)
  }

  /** One more row, of another delivery or another generation. */
  lemma OtherRowTells(s: State, after: State, last: AttemptRow, d: int)
    requires 0 <= d < |s.deliveries| && d < |after.deliveries| && StatusRight(s, d)
    requires after.log == s.log + [last] && !IsOf(last, d, s.deliveries[d].generation) && after.deliveries[d] == s.deliveries[d]
    ensures StatusRight(after, d)
  {
    assert forall i :: 0 <= i < |s.log| ==> after.log[i] == s.log[i];
    RowsForOneMore(s.log, last, d, s.deliveries[d].generation);
  }

  /** One more row of a pending delivery. */
  lemma OwnRowTells(s: State, after: State, last: AttemptRow, d: int)
    requires 0 <= d < |s.deliveries| && d < |after.deliveries| && StatusRight(s, d)
    requires s.deliveries[d].status.Pending? && RowsFor(s.log, d, s.deliveries[d].generation) < 8
    requires after.log == s.log + [last] && IsOf(last, d, s.deliveries[d].generation)
    requires after.deliveries[d].generation == s.deliveries[d].generation
    requires after.deliveries[d].status ==
             if last.ok then Succeeded else if RowsFor(s.log, d, s.deliveries[d].generation) + 1 >= 8 then Failed else Pending
    ensures StatusRight(after, d)
  {
    assert forall i :: 0 <= i < |s.log| ==> after.log[i] == s.log[i];
    assert after.log[|s.log|] == last;
    RowsForOneMore(s.log, last, d, s.deliveries[d].generation);
  }

  lemma WriteTells(s: State, c: int, backoff: Backoff, d: int)
    requires Sound(s) && StatusesRight(s) && HasClaim(s, c) && s.claims[c].phase.Deciding? && UpdateMatches(s, c) && 0 <= d < |s.deliveries|
    ensures StatusRight(Written(s, c, backoff), d)
  {
    var after := Written(s, c, backoff);
    var x := s.claims[c].delivery;
    var last := AttemptRow(c, x, s.deliveries[x].generation, s.claims[c].phase.at, s.claims[c].phase.ok);
    if d == x {
      OwnRowTells(s, after, last, d);
    } else {
      OtherRowTells(s, after, last, d);
    }
  }

  lemma RedeliverTells(s: State, d: int)
    requires Sound(s) && 0 <= d < |s.deliveries|
    ensures StatusRight(Redelivered(s, d), d)
  {
    RowsForNew(s.log, d, s.deliveries[d].generation + 1);
  }

  lemma NewRowTells(s: State, made: seq<Delivery>, d: int)
    requires Sound(s) && Enabled(s, FanOut(made)) && |s.deliveries| <= d < |s.deliveries + made|
    ensures StatusRight(s.(deliveries := s.deliveries + made), d)
  {
    assert (s.deliveries + made)[d] in made;
    RowsForNew(s.log, d, 0);
  }

  /** Neither the row nor the attempts of the delivery change. */
  lemma QuietTells(s: State, after: State, d: int)
    requires 0 <= d < |s.deliveries| && d < |after.deliveries| && StatusRight(s, d)
    requires after.log == s.log && after.deliveries[d].generation == s.deliveries[d].generation
    requires after.deliveries[d].status == s.deliveries[d].status
    ensures StatusRight(after, d)
  {
  }

  lemma StepTells(s: State, step: Step, backoff: Backoff, d: int)
    requires Sound(s) && StatusesRight(s) && Enabled(s, step) && 0 <= d < |Next(s, step, backoff).deliveries|
    ensures StatusRight(Next(s, step, backoff), d)
  {
    if step.FanOut? && |s.deliveries| <= d {
      NewRowTells(s, step.made, d);
    } else if step.WriteRow? && UpdateMatches(s, step.c) {
      WriteTells(s, step.c, backoff, d);
    } else if step == Redeliver(d) {
      RedeliverTells(s, d);
    } else {
      if step.ClaimDue? {
        ClaimAllExact(s, step.chosen, step.started);
      }
      QuietTells(s, Next(s, step, backoff), d);
    }
  }

  lemma RunTells(trace: seq<State>, steps: seq<Step>, backoff: Backoff, k: nat, d: int)
    requires Run(trace, steps, backoff) && k + 1 < |trace| && StatusesRight(trace[k]) && 0 <= d < |trace[k + 1].deliveries|
    ensures StatusRight(trace[k + 1], d)
  {
    RunSound(trace, steps, backoff, k);
    assert Enabled(trace[k], steps[k]) && trace[k + 1] == Next(trace[k], steps[k], backoff);
    StepTells(trace[k], steps[k], backoff, d);
  }

  /** In every run a delivery has succeeded exactly when an attempt row of it, since its last redelivery, is a success,
      and that row is then the last; and it has failed exactly when there are eight such rows and none is. */
  lemma {:induction false} StatusIsToldByTheLog(trace: seq<State>, steps: seq<Step>, backoff: Backoff, k: nat)
    requires Run(trace, steps, backoff) && k < |trace|
    ensures forall d :: 0 <= d < |trace[k].deliveries| ==> StatusRight(trace[k], d)
  {
    if k > 0 {
      StatusIsToldByTheLog(trace, steps, backoff, k - 1);
      forall d | 0 <= d < |trace[k].deliveries| ensures StatusRight(trace[k], d) {
        RunTells(trace, steps, backoff, k - 1, d);
      }
    }
  }

  // ---------------------------------------------------------------- who wrote next_attempt_at

  /** The step changes the row of the delivery. */
  predicate Touches(s: State, step: Step, d: int) {
    match step
    case Redeliver(x) => x == d
    case ClaimDue(chosen, _) => d in chosen
    case WriteRow(c) => HasClaim(s, c) && s.claims[c].phase.Deciding? && s.claims[c].delivery == d && UpdateMatches(s, c)
    case _ => false
  }

  /** And sets its next attempt to v: a redelivery at v, a claim a lease before v, or a failed attempt
      charged so that its wait ends at v. */
  predicate Writes(s: State, step: Step, backoff: Backoff, d: int, v: int) {
    && Touches(s, step, d)
    && match step
       case Redeliver(_) => v == s.now
       case ClaimDue(_, _) => v == s.now + 60_000_000
       case WriteRow(c) =>
         var Deciding(ok, count, at) := s.claims[c].phase;
         !ok && count + 1 < 8 && v == at + backoff(s.deliveries[d].event, count + 1)
       case _ => false
  }

  lemma TouchesExact(s: State, step: Step, backoff: Backoff, d: int)
    requires Enabled(s, step) && 0 <= d < |s.deliveries|
    ensures |s.deliveries| <= |Next(s, step, backoff).deliveries|
    ensures !Touches(s, step, d) ==> Next(s, step, backoff).deliveries[d] == s.deliveries[d]
    ensures Touches(s, step, d) ==> forall v :: Next(s, step, backoff).deliveries[d].next == Some(v) <==> Writes(s, step, backoff, d, v)
  {
    if step.ClaimDue? {
      ClaimAllExact(s, step.chosen, step.started);
    }
  }

  /** Step i was the last to change the row before state k, and set its next attempt to v. */
  ghost predicate LastWrote(trace: seq<State>, steps: seq<Step>, backoff: Backoff, d: int, v: int, i: int, k: int) {
    && 0 <= i < k < |trace| && |steps| + 1 == |trace|
    && Writes(trace[i], steps[i], backoff, d, v) && Quiet(trace, steps, d, i + 1, k)
  }

  ghost predicate Quiet(trace: seq<State>, steps: seq<Step>, d: int, from: int, to: int)
    requires 0 <= from && to < |trace| == |steps| + 1
  {
    forall j :: from <= j < to ==> !Touches(trace[j], steps[j], d)
  }

  ghost predicate Claimed(s: State, d: int) {
    exists c :: 0 <= c < |s.claims| && s.claims[c].delivery == d
  }

  lemma {:induction false} WhatWasWrittenStays(trace: seq<State>, steps: seq<Step>, backoff: Backoff, d: int, v: int, i: int, k: int)
    requires Run(trace, steps, backoff) && LastWrote(trace, steps, backoff, d, v, i, k)
    ensures 0 <= d < |trace[k].deliveries| && trace[k].deliveries[d].next == Some(v)
    decreases k - i
  {
    if k == i + 1 {
      TouchesExact(trace[i], steps[i], backoff, d);
    } else {
      WhatWasWrittenStays(trace, steps, backoff, d, v, i, k - 1);
      assert !Touches(trace[k - 1], steps[k - 1], d);
      TouchesExact(trace[k - 1], steps[k - 1], backoff, d);
    }
  }

  /** Claims are only ever added, and one on a delivery only by a step that touches it. */
  lemma ClaimsGrow(s: State, step: Step, backoff: Backoff)
    requires Enabled(s, step)
    ensures |s.claims| <= |Next(s, step, backoff).claims|
    ensures forall c :: 0 <= c < |s.claims| ==> Next(s, step, backoff).claims[c].(phase := s.claims[c].phase) == s.claims[c]
    ensures forall c :: |s.claims| <= c < |Next(s, step, backoff).claims| ==> Touches(s, step, Next(s, step, backoff).claims[c].delivery)
  {
    if step.ClaimDue? {
      ClaimAllExact(s, step.chosen, step.started);
      var after := Next(s, step, backoff);
      forall c | |s.claims| <= c < |after.claims| ensures after.claims[c].delivery in step.chosen {
        assert after.claims[|s.claims| + (c - |s.claims|)].delivery == step.chosen[c - |s.claims|];
      }
    }
  }

  lemma ClaimedBefore(s: State, step: Step, backoff: Backoff, d: int)
    requires Sound(s) && Enabled(s, step) && !Touches(s, step, d) && Claimed(Next(s, step, backoff), d)
    ensures Claimed(s, d) && 0 <= d < |s.deliveries|
  {
    ClaimsGrow(s, step, backoff);
    var after := Next(s, step, backoff);
    var c :| 0 <= c < |after.claims| && after.claims[c].delivery == d;
    assert HasClaim(s, c) && s.claims[c].delivery == d;
  }

  lemma {:induction false} SomeStepWrote(trace: seq<State>, steps: seq<Step>, backoff: Backoff, d: int, v: int, k: nat) returns (i: int)
    requires Run(trace, steps, backoff) && k < |trace| && 0 <= d < |trace[k].deliveries| && Claimed(trace[k], d)
    requires trace[k].deliveries[d].next == Some(v)
    ensures LastWrote(trace, steps, backoff, d, v, i, k)
  {
    var s, step := trace[k - 1], steps[k - 1];
    if Touches(s, step, d) {
      TouchesExact(s, step, backoff, d);
      i := k - 1;
    } else {
      RunSound(trace, steps, backoff, k - 1);
      ClaimedBefore(s, step, backoff, d);
      TouchesExact(s, step, backoff, d);
      i := SomeStepWrote(trace, steps, backoff, d, v, k - 1);
    }
  }

  /** In every run the next attempt of a claimed delivery is what the last step that changed its row
      made it: a claim, a failed attempt, or a redelivery. */
  lemma NextWasWritten(trace: seq<State>, steps: seq<Step>, backoff: Backoff, d: int, v: int, k: nat)
    requires Run(trace, steps, backoff) && k < |trace| && 0 <= d < |trace[k].deliveries| && Claimed(trace[k], d)
    ensures trace[k].deliveries[d].next == Some(v) <==> exists i :: LastWrote(trace, steps, backoff, d, v, i, k)
  {
    if trace[k].deliveries[d].next == Some(v) {
      var i := SomeStepWrote(trace, steps, backoff, d, v, k);
    }
    forall i | LastWrote(trace, steps, backoff, d, v, i, k) ensures trace[k].deliveries[d].next == Some(v) {
      WhatWasWrittenStays(trace, steps, backoff, d, v, i, k);
    }
  }

  // ---------------------------------------------------------------- stale writes

  /** The newest claim on its delivery, with no redelivery since. */
  ghost predicate Current(s: State, c: int)
    requires HasClaim(s, c)
  {
    && s.claims[c].generation == s.deliveries[s.claims[c].delivery].generation
    && Newest(s.claims, c)
  }

  ghost predicate Newest(claims: seq<Claim>, c: int)
    requires 0 <= c < |claims|
  {
    forall j :: c < j < |claims| ==> claims[j].delivery != claims[c].delivery
  }

  lemma QuietStepStaysCurrent(s: State, step: Step, backoff: Backoff, c: int)
    requires Enabled(s, step) && HasClaim(s, c) && Current(s, c) && !Touches(s, step, s.claims[c].delivery)
    ensures HasClaim(Next(s, step, backoff), c) && Current(Next(s, step, backoff), c)
    ensures Next(s, step, backoff).claims[c].delivery == s.claims[c].delivery
  {
    ClaimsGrow(s, step, backoff);
    TouchesExact(s, step, backoff, s.claims[c].delivery);
  }

  lemma JustClaimedIsCurrent(s: State, chosen: seq<int>, started: int, c: int)
    requires Enabled(s, ClaimDue(chosen, started)) && |s.claims| <= c < |s.claims| + |chosen|
    ensures HasClaim(ClaimAll(s, chosen, started), c) && Current(ClaimAll(s, chosen, started), c)
  {
    ClaimAllExact(s, chosen, started);
    var after := ClaimAll(s, chosen, started);
    var n := c - |s.claims|;
    assert after.claims[|s.claims| + n].delivery == chosen[n] && Claimable(s, chosen[n]);
    forall j | c < j < |after.claims| ensures after.claims[j].delivery != chosen[n] {
      assert after.claims[|s.claims| + (j - |s.claims|)].delivery == chosen[j - |s.claims|];
    }
  }

  /** A claim whose own step was the last to change its row is still current. */
  lemma {:induction false} QuietSinceItsClaim(trace: seq<State>, steps: seq<Step>, backoff: Backoff, c: int, d: int, i: int, k: nat)
    requires Run(trace, steps, backoff) && 0 <= i < k < |trace| && |trace[i].claims| <= c && Quiet(trace, steps, d, i + 1, k)
    requires HasClaim(trace[k], c) && trace[k].claims[c].delivery == d
    ensures Current(trace[k], c)
    decreases k
  {
    var s, step := trace[k - 1], steps[k - 1];
    ClaimsGrow(s, step, backoff);
    if c < |s.claims| {
      assert s.claims[c].delivery == d;
      assert i < k - 1;
      RunSound(trace, steps, backoff, k - 1);
      assert HasClaim(s, c);
      QuietSinceItsClaim(trace, steps, backoff, c, d, i, k - 1);
      assert !Touches(s, step, d);
      QuietStepStaysCurrent(s, step, backoff, c);
    } else {
      assert Touches(s, step, d);
      JustMade(s, step, backoff, c);
    }
  }

  lemma JustMade(s: State, step: Step, backoff: Backoff, c: int)
    requires Enabled(s, step) && |s.claims| <= c && HasClaim(Next(s, step, backoff), c)
    ensures Current(Next(s, step, backoff), c)
  {
    assert step.ClaimDue?;
    ClaimAllExact(s, step.chosen, step.started);
    JustClaimedIsCurrent(s, step.chosen, step.started, c);
  }

  /** In every run, when the update of a claim that was superseded, by a newer claim or a redelivery,
      still finds its row: exactly when the last step that changed the row, after the claim, set its next
      attempt to the claim's lease again, and the count is the one it read. That step was a redelivery at
      the instant the lease ends, a claim at the instant this one was made, or a failed attempt whose
      wait ends with the lease. Otherwise nothing is written. */
  lemma StaleUpdateIff(trace: seq<State>, steps: seq<Step>, backoff: Backoff, c: int, k: nat)
    requires Run(trace, steps, backoff) && k < |trace| && HasClaim(trace[k], c) && trace[k].claims[c].phase.Deciding?
    requires !Current(trace[k], c)
    ensures UpdateMatches(trace[k], c) <==>
            && trace[k].deliveries[trace[k].claims[c].delivery].attempts == trace[k].claims[c].phase.count
            && exists i :: LastWrote(trace, steps, backoff, trace[k].claims[c].delivery, trace[k].claims[c].lease, i, k) && c < |trace[i].claims|
  {
    var d, lease := trace[k].claims[c].delivery, trace[k].claims[c].lease;
    RunSound(trace, steps, backoff, k);
    assert Claimed(trace[k], d);
    NextWasWritten(trace, steps, backoff, d, lease, k);
    forall i | LastWrote(trace, steps, backoff, d, lease, i, k) ensures c < |trace[i].claims| {
      if |trace[i].claims| <= c {
        QuietSinceItsClaim(trace, steps, backoff, c, d, i, k);
      }
    }
  }

  /** In every run, when a delivery has come due although a claim on it still has its lease: exactly when
      the last step that changed the row, after the claim, set its next attempt to now or earlier, which
      only a redelivery or a failed attempt does. */
  lemma DueInsideALeaseIff(trace: seq<State>, steps: seq<Step>, backoff: Backoff, c: int, k: nat)
    requires Run(trace, steps, backoff) && k < |trace| && HasClaim(trace[k], c) && trace[k].now < trace[k].claims[c].lease
    ensures var next := trace[k].deliveries[trace[k].claims[c].delivery].next;
            next.Some? && next.value <= trace[k].now <==>
            exists i, v :: v <= trace[k].now && LastWrote(trace, steps, backoff, trace[k].claims[c].delivery, v, i, k) && c < |trace[i].claims|
  {
    var d := trace[k].claims[c].delivery;
    var next := trace[k].deliveries[d].next;
    assert Claimed(trace[k], d);
    if next.Some? && next.value <= trace[k].now {
      var i := SomeStepWrote(trace, steps, backoff, d, next.value, k);
      MadeBefore(trace, steps, backoff, c, d, next.value, i, k);
    }
    forall i, v | v <= trace[k].now && LastWrote(trace, steps, backoff, d, v, i, k) ensures next == Some(v) {
      WhatWasWrittenStays(trace, steps, backoff, d, v, i, k);
    }
  }

  lemma {:induction false} MadeBefore(trace: seq<State>, steps: seq<Step>, backoff: Backoff, c: int, d: int, v: int, i: int, k: nat)
    requires Run(trace, steps, backoff) && LastWrote(trace, steps, backoff, d, v, i, k)
    requires HasClaim(trace[k], c) && trace[k].claims[c].delivery == d && v != trace[k].claims[c].lease
    ensures c < |trace[i].claims|
  {
    var s, step := trace[k - 1], steps[k - 1];
    ClaimsGrow(s, step, backoff);
    if c < |s.claims| {
      RunSound(trace, steps, backoff, k - 1);
      assert HasClaim(s, c) && s.claims[c].delivery == d;
      if i < k - 1 {
        MadeBefore(trace, steps, backoff, c, d, v, i, k - 1);
      }
    } else {
      assert Touches(s, step, d);
      assert i == k - 1;
      MadeWithLease(s, step, backoff, c);
    }
  }

  lemma MadeWithLease(s: State, step: Step, backoff: Backoff, c: int)
    requires Enabled(s, step) && |s.claims| <= c && HasClaim(Next(s, step, backoff), c)
    ensures step.ClaimDue? && Next(s, step, backoff).claims[c].lease == s.now + CLAIM_LEASE
  {
    if step.ClaimDue? {
      ClaimAllExact(s, step.chosen, step.started);
      var n := c - |s.claims|;
      assert Next(s, step, backoff).claims[|s.claims| + n].delivery == step.chosen[n];
    }
  }

  // ---------------------------------------------------------------- leases that are respected

  /** A claim on the delivery that is still being worked on. */
  predicate InFlight(s: State, c: int, d: int) {
    HasClaim(s, c) && s.claims[c].delivery == d && !s.claims[c].phase.Over?
  }

  predicate Idle(s: State, d: int) {
    forall c :: 0 <= c < |s.claims| ==> !InFlight(s, c, d)
  }

  /** A redelivery that no claim still being worked on could mistake for its own lease. */
  predicate PastEveryLease(s: State, d: int) {
    forall c :: 0 <= c < |s.claims| && InFlight(s, c, d) ==> s.claims[c].lease < s.now
  }

  ghost predicate Patient(s: State, step: Step, d: int) {
    step == Redeliver(d) ==> PastEveryLease(s, d)
  }

  /** The waits of one event: none negative, and where it is asked none zero. */
  ghost predicate Waits(backoff: Backoff, event: int, strict: bool) {
    forall attempts :: 1 <= attempts < MAX_ATTEMPTS ==> 0 <= backoff(event, attempts) && (strict ==> 0 < backoff(event, attempts))
  }

  /** The row is as the claim left it, and so is the count it read. */
  ghost predicate Untouched(s: State, c: int)
    requires HasClaim(s, c)
  {
    var row := s.deliveries[s.claims[c].delivery];
    && row.status.Pending? && row.next == Some(s.claims[c].lease) && row.attempts == s.claims[c].count
    && (s.claims[c].phase.Deciding? ==> s.claims[c].phase.count == s.claims[c].count)
  }

  /** The row's next attempt lies beyond the claim's lease, or there is none. It may lie at the lease
      only where a wait may be zero, and not after a redelivery. */
  ghost predicate Passed(s: State, c: int, strict: bool)
    requires HasClaim(s, c)
  {
    var row := s.deliveries[s.claims[c].delivery];
    || row.next.None? || s.claims[c].lease < row.next.value
    || (!strict && s.claims[c].generation == row.generation && s.claims[c].lease == row.next.value)
  }

  /** A claim in flight has its row untouched while it is current, and has been passed after. */
  ghost predicate ClaimsHold(s: State, strict: bool, d: int) {
    forall c :: InFlight(s, c, d) ==> if Current(s, c) then Untouched(s, c) else Passed(s, c, strict)
  }

  /** Claims of the delivery are a lease apart, for as long as the earlier is in flight, and more across a
      redelivery. */
  ghost predicate ClaimsApart(s: State, d: int) {
    forall i, j :: 0 <= i < j < |s.claims| && InFlight(s, i, d) && s.claims[j].delivery == d ==>
      && s.claims[i].lease <= MadeAt(s.claims[j])
      && (s.claims[i].generation < s.claims[j].generation ==> s.claims[i].lease < MadeAt(s.claims[j]))
  }

  /** strict is for waits that are never zero. */
  ghost predicate Leased(s: State, strict: bool, d: int) {
    Sound(s) && ClaimsHold(s, strict, d) && ClaimsApart(s, d)
  }

  /** A claim that is over stays over, and a count is the row's at the time it is read. */
  lemma PhasesMove(s: State, step: Step, backoff: Backoff, c: int)
    requires Enabled(s, step) && HasClaim(s, c)
    ensures c < |Next(s, step, backoff).claims|
    ensures s.claims[c].phase.Over? ==> Next(s, step, backoff).claims[c].phase.Over?
    ensures Next(s, step, backoff).claims[c].phase.Deciding? ==>
              || Next(s, step, backoff).claims[c].phase == s.claims[c].phase
              || Next(s, step, backoff).claims[c].phase.count == s.deliveries[s.claims[c].delivery].attempts
  {
    ClaimsGrow(s, step, backoff);
    if step.ClaimDue? {
      ClaimAllExact(s, step.chosen, step.started);
    }
  }

  /** Steps that leave the row alone, whatever they do to others. */
  lemma QuietKeeps(s: State, step: Step, backoff: Backoff, strict: bool, d: int)
    requires ClaimsTimed(s) && ClaimsHold(s, strict, d) && ClaimsApart(s, d) && Enabled(s, step) && !Touches(s, step, d)
    ensures ClaimsHold(Next(s, step, backoff), strict, d) && ClaimsApart(Next(s, step, backoff), d)
  {
    var after := Next(s, step, backoff);
    ClaimsGrow(s, step, backoff);
    forall c | HasClaim(after, c) && after.claims[c].delivery == d
      ensures HasClaim(s, c) && s.claims[c].delivery == d && (InFlight(after, c, d) ==> InFlight(s, c, d))
      ensures after.deliveries[d] == s.deliveries[d] && (Current(after, c) <==> Current(s, c))
      ensures after.claims[c].phase.Deciding? ==> after.claims[c].phase == s.claims[c].phase || after.claims[c].phase.count == s.deliveries[d].attempts
    {
      assert HasClaim(s, c);
      PhasesMove(s, step, backoff, c);
      TouchesExact(s, step, backoff, d);
      assert Newest(after.claims, c) <==> Newest(s.claims, c);
    }
  }

  /** The one claim a claim step makes on a delivery it chose. */
  lemma ClaimMade(s: State, chosen: seq<int>, started: int, d: int) returns (c: int)
    requires Sound(s) && Enabled(s, ClaimDue(chosen, started)) && d in chosen
    ensures var after := ClaimAll(s, chosen, started);
            && |s.claims| <= c < |after.claims| && HasClaim(after, c) && Current(after, c) && Untouched(after, c)
            && after.claims[c].delivery == d && after.claims[c].lease == s.now + CLAIM_LEASE
            && after.claims[c].generation == s.deliveries[d].generation
            && (forall j :: |s.claims| <= j < |after.claims| && after.claims[j].delivery == d ==> j == c)
  {
    ClaimAllClaims(s, chosen, started);
    var at :| 0 <= at < |chosen| && chosen[at] == d;
    c := |s.claims| + at;
    assert ClaimAll(s, chosen, started).claims[|s.claims| + at].delivery == chosen[at];
    JustClaimedHolds(s, chosen, started, c);
    OneClaimOn(s, chosen, started, at);
  }

  lemma OneClaimOn(s: State, chosen: seq<int>, started: int, at: int)
    requires Enabled(s, ClaimDue(chosen, started)) && 0 <= at < |chosen|
    ensures var claims := ClaimAll(s, chosen, started).claims;
            forall j :: |s.claims| <= j < |claims| && claims[j].delivery == chosen[at] ==> j == |s.claims| + at
  {
    ClaimAllClaims(s, chosen, started);
    var claims, n := ClaimAll(s, chosen, started).claims, |s.claims|;
    forall j | n <= j < |claims| && claims[j].delivery == chosen[at] ensures j == n + at {
      assert claims[n + (j - n)].delivery == chosen[j - n];
    }
  }

  lemma JustClaimedHolds(s: State, chosen: seq<int>, started: int, c: int)
    requires Enabled(s, ClaimDue(chosen, started)) && |s.claims| <= c < |s.claims| + |chosen|
    ensures HasClaim(ClaimAll(s, chosen, started), c) && Current(ClaimAll(s, chosen, started), c)
    ensures Untouched(ClaimAll(s, chosen, started), c)
  {
    JustClaimedIsCurrent(s, chosen, started, c);
    ClaimAllExact(s, chosen, started);
    assert Claimable(s, chosen[c - |s.claims|]);
  }

  /** Whatever is in flight for a delivery that has come due has outlived its lease. */
  lemma DueMeansExpired(s: State, d: int, k: int, strict: bool)
    requires ClaimsHold(s, strict, d) && Claimable(s, d) && InFlight(s, k, d)
    ensures s.claims[k].lease <= s.now
    ensures s.claims[k].generation < s.deliveries[d].generation ==> s.claims[k].lease < s.now
  {
    assert if Current(s, k) then Untouched(s, k) else Passed(s, k, strict);
  }

  lemma ClaimKeeps(s: State, chosen: seq<int>, started: int, strict: bool, d: int)
    requires Leased(s, strict, d) && Enabled(s, ClaimDue(chosen, started)) && d in chosen
    ensures ClaimsHold(ClaimAll(s, chosen, started), strict, d) && ClaimsApart(ClaimAll(s, chosen, started), d)
  {
    var c := ClaimMade(s, chosen, started, d);
    var after := ClaimAll(s, chosen, started);
    forall k | InFlight(after, k, d) && k != c
      ensures k < c && !Current(after, k) && Passed(after, k, strict) && after.claims[k].lease <= s.now
      ensures after.claims[k].generation < after.claims[c].generation ==> after.claims[k].lease < s.now
    {
      OlderIsPassed(s, chosen, started, strict, d, k, c);
    }
    ClaimAllClaims(s, chosen, started);
    assert forall k :: 0 <= k < |s.claims| && InFlight(after, k, d) ==> InFlight(s, k, d);
  }

  lemma OlderIsPassed(s: State, chosen: seq<int>, started: int, strict: bool, d: int, k: int, c: int)
    requires Leased(s, strict, d) && Enabled(s, ClaimDue(chosen, started)) && d in chosen
    requires var after := ClaimAll(s, chosen, started);
             && InFlight(after, k, d) && k < |s.claims| <= c < |after.claims| && after.claims[c].delivery == d
             && after.claims[c].generation == s.deliveries[d].generation
    ensures var after := ClaimAll(s, chosen, started);
            && !Current(after, k) && Passed(after, k, strict) && after.claims[k].lease <= s.now
            && (after.claims[k].generation < after.claims[c].generation ==> after.claims[k].lease < s.now)
  {
    ClaimAllExact(s, chosen, started);
    var at :| 0 <= at < |chosen| && chosen[at] == d;
    assert Claimable(s, chosen[at]);
    assert InFlight(s, k, d);
    DueMeansExpired(s, d, k, strict);
  }

  /** A claim that writes is the newest on its row or the row's lease came back to it; nothing newer is
      being worked on. */
  lemma WriterIsLast(s: State, c: int, k: int, strict: bool, d: int)
    requires Leased(s, strict, d) && InFlight(s, c, d) && s.claims[c].phase.Deciding? && UpdateMatches(s, c)
    requires InFlight(s, k, d) && k != c
    ensures k < c && !Current(s, k)
    ensures s.claims[k].lease <= s.claims[c].phase.at
    ensures s.claims[k].generation < s.deliveries[d].generation ==> s.claims[k].lease < s.claims[c].phase.at
  {
    assert if Current(s, k) then Untouched(s, k) else Passed(s, k, strict);
    assert if Current(s, c) then Untouched(s, c) else Passed(s, c, strict);
    assert k < c ==> s.claims[k].lease <= MadeAt(s.claims[c]);
  }

  lemma WriteHolds(s: State, c: int, backoff: Backoff, strict: bool, d: int)
    requires Leased(s, strict, d) && InFlight(s, c, d) && s.claims[c].phase.Deciding? && UpdateMatches(s, c)
    requires Waits(backoff, s.deliveries[d].event, strict)
    ensures ClaimsHold(Written(s, c, backoff), strict, d)
  {
    var after := Written(s, c, backoff);
    assert forall j :: 0 <= j < |s.claims| ==> after.claims[j].delivery == s.claims[j].delivery;
    forall k | InFlight(after, k, d) ensures if Current(after, k) then Untouched(after, k) else Passed(after, k, strict) {
      assert k != c && InFlight(s, k, d) && after.claims[k] == s.claims[k];
      assert Newest(after.claims, k) <==> Newest(s.claims, k);
      WriterIsLast(s, c, k, strict, d);
    }
  }

  lemma WriteApart(s: State, c: int, backoff: Backoff, d: int)
    requires ClaimsApart(s, d) && HasClaim(s, c) && s.claims[c].phase.Deciding?
    ensures ClaimsApart(Written(s, c, backoff), d)
  {
    var after := Written(s, c, backoff);
    assert forall j :: 0 <= j < |s.claims| ==> after.claims[j].(phase := s.claims[j].phase) == s.claims[j];
    assert forall j :: InFlight(after, j, d) ==> InFlight(s, j, d);
  }

  lemma RedeliverHolds(s: State, d: int, strict: bool)
    requires Leased(s, strict, d) && 0 <= d < |s.deliveries| && PastEveryLease(s, d)
    ensures ClaimsHold(Redelivered(s, d), strict, d) && ClaimsApart(Redelivered(s, d), d)
  {
    var after := Redelivered(s, d);
    assert forall j :: InFlight(after, j, d) ==> InFlight(s, j, d);
    forall k | InFlight(after, k, d) ensures if Current(after, k) then Untouched(after, k) else Passed(after, k, strict) {
      assert InFlight(s, k, d);
    }
  }

  /** Whatever is done to other deliveries: a step keeps this one's leases respected where a redelivery of it
      comes after the leases in flight, and its waits are not negative. */
  lemma StepKeeps(s: State, step: Step, backoff: Backoff, strict: bool, d: int)
    requires Leased(s, strict, d) && Enabled(s, step) && Patient(s, step, d)
    requires 0 <= d < |s.deliveries| ==> Waits(backoff, s.deliveries[d].event, strict)
    ensures Leased(Next(s, step, backoff), strict, d)
  {
    StepSound(s, step, backoff);
    if !Touches(s, step, d) {
      QuietKeeps(s, step, backoff, strict, d);
    } else if step.ClaimDue? {
      ClaimKeeps(s, step.chosen, step.started, strict, d);
    } else if step.WriteRow? {
      WriteHolds(s, step.c, backoff, strict, d);
      WriteApart(s, step.c, backoff, d);
    } else {
      RedeliverHolds(s, d, strict);
    }
  }

  /** What a delivery is of never changes. */
  lemma RowStays(s: State, step: Step, backoff: Backoff, d: int)
    requires Enabled(s, step) && 0 <= d < |s.deliveries|
    ensures |s.deliveries| <= |Next(s, step, backoff).deliveries|
    ensures var row := Next(s, step, backoff).deliveries[d];
            SameRow(row, s.deliveries[d]) && row.marker == s.deliveries[d].marker && row.event == s.deliveries[d].event
  {
    if step.ClaimDue? {
      ClaimAllExact(s, step.chosen, step.started);
    }
  }

  ghost predicate PatientFrom(trace: seq<State>, steps: seq<Step>, d: int, from: int, to: int)
    requires 0 <= from && to < |trace| == |steps| + 1
  {
    forall i :: from <= i < to ==> Patient(trace[i], steps[i], d)
  }

  lemma NewRowIsIdle(s: State, step: Step, backoff: Backoff, d: int)
    requires ClaimsTimed(s) && Enabled(s, step) && |s.deliveries| <= d
    ensures Idle(Next(s, step, backoff), d)
  {
    ClaimsGrow(s, step, backoff);
    assert !Touches(s, step, d);
  }

  /** From any state in which nobody is working on the delivery. */
  lemma {:induction false} RunKeeps(trace: seq<State>, steps: seq<Step>, backoff: Backoff, from: nat, k: nat, strict: bool, d: int)
    requires Run(trace, steps, backoff) && from <= k < |trace| && Idle(trace[from], d) && PatientFrom(trace, steps, d, from, k)
    requires 0 <= d < |trace[k].deliveries| && Waits(backoff, trace[k].deliveries[d].event, strict)
    ensures Leased(trace[k], strict, d)
  {
    if from < k && d < |trace[k - 1].deliveries| {
      RowStays(trace[k - 1], steps[k - 1], backoff, d);
      RunKeeps(trace, steps, backoff, from, k - 1, strict, d);
      StepKeeps(trace[k - 1], steps[k - 1], backoff, strict, d);
    } else {
      if from < k {
        StartsIdle(trace, steps, backoff, k, d);
      }
      IdleIsLeased(trace, steps, backoff, k, strict, d);
    }
  }

  lemma StartsIdle(trace: seq<State>, steps: seq<Step>, backoff: Backoff, k: nat, d: int)
    requires Run(trace, steps, backoff) && 0 < k < |trace| && |trace[k - 1].deliveries| <= d
    ensures Idle(trace[k], d)
  {
    RunSound(trace, steps, backoff, k - 1);
    NewRowIsIdle(trace[k - 1], steps[k - 1], backoff, d);
  }

  lemma IdleIsLeased(trace: seq<State>, steps: seq<Step>, backoff: Backoff, k: nat, strict: bool, d: int)
    requires Run(trace, steps, backoff) && k < |trace| && Idle(trace[k], d)
    ensures Leased(trace[k], strict, d)
  {
    RunSound(trace, steps, backoff, k);
  }

  /** From any state in which nobody is working on the delivery, with waits of its own that are never zero and
      redeliveries of it after the leases in flight: its update finds its row exactly when the claim is current. */
  lemma RecordWritesIffCurrent(trace: seq<State>, steps: seq<Step>, backoff: Backoff, from: nat, k: nat, c: int, d: int)
    requires Run(trace, steps, backoff) && from <= k < |trace| && Idle(trace[from], d) && PatientFrom(trace, steps, d, from, k)
    requires InFlight(trace[k], c, d) && trace[k].claims[c].phase.Deciding? && Waits(backoff, trace[k].deliveries[d].event, true)
    ensures UpdateMatches(trace[k], c) <==> Current(trace[k], c)
  {
    RunKeeps(trace, steps, backoff, from, k, true, d);
    assert if Current(trace[k], c) then Untouched(trace[k], c) else Passed(trace[k], c, true);
  }

  /** Where redeliveries come after the leases in flight, a failed attempt leaves the row looking as an older
      claim left it exactly when its wait is zero and it was charged at the instant the older lease ran out. */
  lemma StaleLeaseComesBackIff(s: State, i: int, j: int, backoff: Backoff, d: int)
    requires Leased(s, false, d) && InFlight(s, i, d) && InFlight(s, j, d) && i != j
    requires s.claims[j].phase.Deciding? && UpdateMatches(s, j) && Waits(backoff, s.deliveries[d].event, false)
    requires !s.claims[j].phase.ok && s.claims[j].phase.count + 1 < MAX_ATTEMPTS
    ensures var row := Written(s, j, backoff).deliveries[d];
            && row.status.Pending?
            && (row.next == Some(s.claims[i].lease) <==>
                s.claims[j].phase.at == s.claims[i].lease && backoff(row.event, s.claims[j].phase.count + 1) == 0)
  {
    WriterIsLast(s, j, i, false, d);
  }

  /** From any state in which nobody is working on the delivery, with redeliveries of it after the leases in flight:
      it is never being sent by two claims at once, and a claim that was superseded sends nothing. */
  lemma NeverSentTwiceAtOnce(trace: seq<State>, steps: seq<Step>, backoff: Backoff, from: nat, k: nat, a: int, b: int, d: int)
    requires Run(trace, steps, backoff) && from <= k < |trace| && Idle(trace[from], d) && PatientFrom(trace, steps, d, from, k)
    requires HasClaim(trace[k], a) && HasClaim(trace[k], b) && a < b && trace[k].claims[a].delivery == trace[k].claims[b].delivery == d
    requires Waits(backoff, trace[k].deliveries[d].event, false)
    ensures !trace[k].claims[a].phase.Sending?
  {
    RunKeeps(trace, steps, backoff, from, k, false, d);
    assert MadeAt(trace[k].claims[b]) <= trace[k].now;
  }

  // ---------------------------------------------------------------- two senders

  lemma NowGrows(s: State, step: Step, backoff: Backoff)
    requires Enabled(s, step)
    ensures s.now <= Next(s, step, backoff).now
  {
    if step.ClaimDue? {
      ClaimAllExact(s, step.chosen, step.started);
    }
  }

  ghost predicate SameClaims(s: State, later: State) {
    |s.claims| <= |later.claims| && forall c :: 0 <= c < |s.claims| ==> later.claims[c].(phase := s.claims[c].phase) == s.claims[c]
  }

  lemma MadeByClaiming(s: State, step: Step, backoff: Backoff, b: int)
    requires Enabled(s, step) && |s.claims| <= b < |Next(s, step, backoff).claims|
    ensures step.ClaimDue? && Next(s, step, backoff).claims[b].delivery in step.chosen
  {
    if step.ClaimDue? {
      ClaimAllExact(s, step.chosen, step.started);
      var n := b - |s.claims|;
      assert Next(s, step, backoff).claims[|s.claims| + n].delivery == step.chosen[n];
    }
  }

  lemma {:induction false} MadeAtStep(trace: seq<State>, steps: seq<Step>, backoff: Backoff, b: int, k: nat) returns (i: nat)
    requires Run(trace, steps, backoff) && k < |trace| && HasClaim(trace[k], b)
    ensures i < k && |trace[i].claims| <= b < |trace[i + 1].claims| && trace[i].now <= trace[k].now
    ensures trace[i + 1].claims[b].delivery == trace[k].claims[b].delivery && steps[i].ClaimDue? && trace[k].claims[b].delivery in steps[i].chosen
    ensures SameClaims(trace[i + 1], trace[k])
  {
    ClaimsGrow(trace[k - 1], steps[k - 1], backoff);
    NowGrows(trace[k - 1], steps[k - 1], backoff);
    if b < |trace[k - 1].claims| {
      RunSound(trace, steps, backoff, k - 1);
      assert HasClaim(trace[k - 1], b);
      i := MadeAtStep(trace, steps, backoff, b, k - 1);
    } else {
      i := k - 1;
      MadeByClaiming(trace[i], steps[i], backoff, b);
    }
  }

  /** In every run each claim was made of a pending delivery that was due, for a subscription switched on and not
      paused, with no earlier change to its row still pending. */
  lemma ClaimedByRight(trace: seq<State>, steps: seq<Step>, backoff: Backoff, b: int, k: nat) returns (i: nat)
    requires Run(trace, steps, backoff) && k < |trace| && HasClaim(trace[k], b)
    ensures i < k && |trace[i].claims| <= b < |trace[i + 1].claims|
    ensures var s, d := trace[i], trace[k].claims[b].delivery;
            && 0 <= d < |s.deliveries| && s.deliveries[d].status == Pending
            && s.deliveries[d].next.Some? && s.deliveries[d].next.value <= s.now
            && s.deliveries[d].sub in s.subs && s.subs[s.deliveries[d].sub].active && !s.subs[s.deliveries[d].sub].paused
            && forall e :: 0 <= e < |s.deliveries| && s.deliveries[e].status == Pending && s.deliveries[e].sub == s.deliveries[d].sub
                           && s.deliveries[e].entity == s.deliveries[d].entity
                   ==> s.deliveries[d].marker <= s.deliveries[e].marker
  {
    i := MadeAtStep(trace, steps, backoff, b, k);
    assert Enabled(trace[i], steps[i]);
    assert Claimable(trace[i], trace[k].claims[b].delivery);
  }

  lemma OneClaimEach(s: State, chosen: seq<int>, started: int, a: int, b: int)
    requires Enabled(s, ClaimDue(chosen, started)) && 0 <= a < b < |ClaimAll(s, chosen, started).claims| && |s.claims| <= b
    requires ClaimAll(s, chosen, started).claims[a].delivery == ClaimAll(s, chosen, started).claims[b].delivery
    ensures a < |s.claims|
  {
    ClaimAllExact(s, chosen, started);
    if |s.claims| <= a {
      JustClaimedIsCurrent(s, chosen, started, a);
    }
  }

  /** In every run: a second claim stands on a delivery although an older claim still has its lease only because,
      when it was made, the last step to change the row, after the older claim, had made it due again. */
  lemma SecondClaimOnlyIf(trace: seq<State>, steps: seq<Step>, backoff: Backoff, k: nat, a: int, b: int)
    requires Run(trace, steps, backoff) && k < |trace| && HasClaim(trace[k], a) && HasClaim(trace[k], b) && a < b
    requires trace[k].claims[a].delivery == trace[k].claims[b].delivery && trace[k].now < trace[k].claims[a].lease
    ensures exists i, j, v :: && 0 <= i < k && |trace[i].claims| <= b < |trace[i + 1].claims| && v <= trace[i].now
                              && LastWrote(trace, steps, backoff, trace[k].claims[b].delivery, v, j, i) && a < |trace[j].claims|
  {
    var d := trace[k].claims[b].delivery;
    var i := MadeAtStep(trace, steps, backoff, b, k);
    var j, v := MadeDueBefore(trace, steps, backoff, i, k, a, b, d);
  }

  lemma MadeDueBefore(trace: seq<State>, steps: seq<Step>, backoff: Backoff, i: nat, k: nat, a: int, b: int, d: int) returns (j: int, v: int)
    requires Run(trace, steps, backoff) && i < k < |trace| && HasClaim(trace[k], a) && 0 <= a < b && |trace[i].claims| <= b < |trace[i + 1].claims|
    requires steps[i].ClaimDue? && d in steps[i].chosen && trace[i + 1].claims[b].delivery == d && trace[k].claims[a].delivery == d
    requires trace[i].now <= trace[k].now < trace[k].claims[a].lease
    requires SameClaims(trace[i + 1], trace[k])
    ensures v <= trace[i].now && LastWrote(trace, steps, backoff, d, v, j, i) && a < |trace[j].claims|
  {
    ClaimAllExact(trace[i], steps[i].chosen, steps[i].started);
    OneClaimEach(trace[i], steps[i].chosen, steps[i].started, a, b);
    RunSound(trace, steps, backoff, i);
    assert HasClaim(trace[i], a);
    var at :| 0 <= at < |steps[i].chosen| && steps[i].chosen[at] == d;
    assert Claimable(trace[i], d);
    DueInsideALeaseIff(trace, steps, backoff, a, i);
    j, v :| v <= trace[i].now && LastWrote(trace, steps, backoff, d, v, j, i) && a < |trace[j].claims|;
  }

  /** And once a delivery being sent is due again, with its subscription live and nothing earlier holding it up,
      the run goes on to two claims sending it at once. */
  lemma DueInFlightIsSentTwice(trace: seq<State>, steps: seq<Step>, backoff: Backoff, a: int, d: int) returns (trace': seq<State>, steps': seq<Step>, b: int)
    requires Run(trace, steps, backoff) && HasClaim(trace[|trace| - 1], a) && Claimable(trace[|trace| - 1], d)
    requires trace[|trace| - 1].claims[a].delivery == d && trace[|trace| - 1].claims[a].phase.Sending?
    ensures Run(trace', steps', backoff) && trace <= trace' && steps <= steps'
    ensures var s := trace'[|trace'| - 1];
            && HasClaim(s, a) && HasClaim(s, b) && a != b && s.claims[a].delivery == s.claims[b].delivery == d
            && s.claims[a].phase.Sending? && s.claims[b].phase.Sending?
  {
    var s := trace[|trace| - 1];
    b := |s.claims|;
    ClaimAllExact(s, [d], s.now);
    var s1 := ClaimAll(s, [d], s.now);
    assert [d][0] == d && [d][..0] == [] && ClaimAll(s, [], s.now) == s && s1 == ClaimOne(s, d, s.now);
    Extended(trace, steps, backoff, ClaimDue([d], s.now), s1);
    var s2 := InPhase(s1, b, Sending(s1.now));
    Extended(trace + [s1], steps + [ClaimDue([d], s.now)], backoff, BeginSend(b), s2);
    trace', steps' := trace + [s1] + [s2], steps + [ClaimDue([d], s.now)] + [BeginSend(b)];
  }

  // ---------------------------------------------------------------- order

  predicate SameRow(a: Delivery, b: Delivery) {
    a.sub == b.sub && a.entity == b.entity
  }

  /** Fan-out makes deliveries of the subscription only for markers beyond every one it already has. */
  ghost predicate InMarkerOrder(s: State, made: seq<Delivery>, sub: int) {
    forall d, k :: 0 <= d < |s.deliveries| && 0 <= k < |made| && s.deliveries[d].sub == sub && made[k].sub == sub ==>
      s.deliveries[d].marker < made[k].marker
  }

  /** d is a later change than e to the same row, for the same subscription. */
  predicate Behind(s: State, d: int, e: int) {
    && 0 <= d < |s.deliveries| && 0 <= e < |s.deliveries| && SameRow(s.deliveries[d], s.deliveries[e])
    && s.deliveries[e].marker < s.deliveries[d].marker
  }

  /** The step ends the delivery: a success, or the last failure. */
  predicate Settles(s: State, step: Step, e: int) {
    && step.WriteRow? && Touches(s, step, e)
    && (s.claims[step.c].phase.ok || s.claims[step.c].phase.count + 1 >= MAX_ATTEMPTS)
  }

  lemma PendingAfter(s: State, step: Step, backoff: Backoff, e: int)
    requires Enabled(s, step) && 0 <= e < |s.deliveries|
    ensures |s.deliveries| <= |Next(s, step, backoff).deliveries|
    ensures Next(s, step, backoff).deliveries[e].status.Pending? <==>
            step == Redeliver(e) || (s.deliveries[e].status.Pending? && !Settles(s, step, e))
  {
    if step.ClaimDue? {
      ClaimAllExact(s, step.chosen, step.started);
    }
  }

  /** Step i redelivered e when d had been claimed, and e has not ended since. */
  ghost predicate RedeliveredSince(trace: seq<State>, steps: seq<Step>, d: int, e: int, i: int, k: int) {
    && 0 <= i < k < |trace| == |steps| + 1 && steps[i] == Redeliver(e) && Claimed(trace[i], d)
    && forall j :: i < j < k ==> !Settles(trace[j], steps[j], e)
  }

  lemma {:induction false} RedeliveredIsPending(trace: seq<State>, steps: seq<Step>, backoff: Backoff, d: int, e: int, i: int, k: nat)
    requires Run(trace, steps, backoff) && RedeliveredSince(trace, steps, d, e, i, k)
    ensures 0 <= e < |trace[k].deliveries| && trace[k].deliveries[e].status.Pending?
  {
    if i < k - 1 {
      RedeliveredIsPending(trace, steps, backoff, d, e, i, k - 1);
      assert !Settles(trace[k - 1], steps[k - 1], e);
    }
    PendingAfter(trace[k - 1], steps[k - 1], backoff, e);
  }

  /** What the last step tells of a pair of which the later is claimed and the earlier pending. */
  lemma PairBefore(s: State, step: Step, backoff: Backoff, d: int, e: int)
    requires Sound(s) && Enabled(s, step) && Behind(Next(s, step, backoff), d, e) && Claimed(Next(s, step, backoff), d)
    requires Next(s, step, backoff).deliveries[e].status.Pending?
    requires step.FanOut? ==> InMarkerOrder(s, step.made, Next(s, step, backoff).deliveries[d].sub)
    ensures Claimed(s, d) && Behind(s, d, e)
    ensures step == Redeliver(e) || (s.deliveries[e].status.Pending? && !Settles(s, step, e))
  {
    var after := Next(s, step, backoff);
    ClaimsGrow(s, step, backoff);
    var c :| 0 <= c < |after.claims| && after.claims[c].delivery == d;
    if step.FanOut? {
      assert HasClaim(s, c);
      assert after.deliveries[d] == s.deliveries[d];
    } else {
      SameDeliveries(s, step, backoff);
      RowStays(s, step, backoff, d);
      RowStays(s, step, backoff, e);
    }
    PendingAfter(s, step, backoff, e);
    ClaimedNow(s, step, backoff, d, e, c);
  }

  lemma SameDeliveries(s: State, step: Step, backoff: Backoff)
    requires Enabled(s, step) && !step.FanOut?
    ensures |Next(s, step, backoff).deliveries| == |s.deliveries|
  {
    if step.ClaimDue? {
      ClaimAllExact(s, step.chosen, step.started);
    }
  }

  /** A delivery with an earlier one pending is not claimed anew. */
  lemma ClaimedNow(s: State, step: Step, backoff: Backoff, d: int, e: int, c: int)
    requires Enabled(s, step) && Behind(s, d, e) && 0 <= c < |Next(s, step, backoff).claims| && Next(s, step, backoff).claims[c].delivery == d
    requires step == Redeliver(e) || s.deliveries[e].status.Pending?
    ensures Claimed(s, d)
  {
    ClaimsGrow(s, step, backoff);
    if c < |s.claims| {
      assert s.claims[c].delivery == d;
    } else {
      MadeNotHeldUp(s, step, backoff, c);
    }
  }

  lemma MadeNotHeldUp(s: State, step: Step, backoff: Backoff, c: int)
    requires Enabled(s, step) && |s.claims| <= c < |Next(s, step, backoff).claims|
    ensures step.ClaimDue? && 0 <= Next(s, step, backoff).claims[c].delivery < |s.deliveries| && !HeldUp(s, Next(s, step, backoff).claims[c].delivery)
  {
    assert step.ClaimDue?;
    ClaimAllExact(s, step.chosen, step.started);
    var n := c - |s.claims|;
    assert Next(s, step, backoff).claims[|s.claims| + n].delivery == step.chosen[n] && Claimable(s, step.chosen[n]);
  }

  /** In every run with its subscription's fan-out in marker order: of two changes to one row, with the later claimed,
      the earlier is pending exactly when it was redelivered after the later had been claimed and has not ended since.
      Otherwise it has succeeded or failed for good. */
  lemma {:induction false} RowsArriveInOrder(trace: seq<State>, steps: seq<Step>, backoff: Backoff, k: nat, d: int, e: int)
    requires Run(trace, steps, backoff) && k < |trace| && Behind(trace[k], d, e) && Claimed(trace[k], d)
    requires forall i :: 0 <= i < k && steps[i].FanOut? ==> InMarkerOrder(trace[i], steps[i].made, trace[k].deliveries[d].sub)
    ensures trace[k].deliveries[e].status.Pending? <==> exists i :: RedeliveredSince(trace, steps, d, e, i, k)
  {
    forall i | RedeliveredSince(trace, steps, d, e, i, k) ensures trace[k].deliveries[e].status.Pending? {
      RedeliveredIsPending(trace, steps, backoff, d, e, i, k);
    }
    if trace[k].deliveries[e].status.Pending? {
      var i := LastRedelivered(trace, steps, backoff, k, d, e);
    }
  }

  lemma {:induction false} LastRedelivered(trace: seq<State>, steps: seq<Step>, backoff: Backoff, k: nat, d: int, e: int) returns (i: int)
    requires Run(trace, steps, backoff) && k < |trace| && Behind(trace[k], d, e) && Claimed(trace[k], d) && trace[k].deliveries[e].status.Pending?
    requires forall i :: 0 <= i < k && steps[i].FanOut? ==> InMarkerOrder(trace[i], steps[i].made, trace[k].deliveries[d].sub)
    ensures RedeliveredSince(trace, steps, d, e, i, k)
  {
    PairOneBack(trace, steps, backoff, k, d, e);
    if steps[k - 1] == Redeliver(e) {
      i := k - 1;
    } else {
      i := LastRedelivered(trace, steps, backoff, k - 1, d, e);
    }
  }

  lemma PairOneBack(trace: seq<State>, steps: seq<Step>, backoff: Backoff, k: nat, d: int, e: int)
    requires Run(trace, steps, backoff) && k < |trace| && Behind(trace[k], d, e) && Claimed(trace[k], d) && trace[k].deliveries[e].status.Pending?
    requires k > 0 && steps[k - 1].FanOut? ==> InMarkerOrder(trace[k - 1], steps[k - 1].made, trace[k].deliveries[d].sub)
    ensures k > 0 && Claimed(trace[k - 1], d) && Behind(trace[k - 1], d, e)
    ensures steps[k - 1] == Redeliver(e) || (trace[k - 1].deliveries[e].status.Pending? && !Settles(trace[k - 1], steps[k - 1], e))
    ensures trace[k - 1].deliveries[d].sub == trace[k].deliveries[d].sub
  {
    RunSound(trace, steps, backoff, k - 1);
    PairBefore(trace[k - 1], steps[k - 1], backoff, d, e);
    RowStays(trace[k - 1], steps[k - 1], backoff, d);
  }

  /** Nothing of the row is claimed while an earlier change to it is still on its way. */
  ghost predicate Ordered(s: State, row: Delivery) {
    forall d, e :: Behind(s, d, e) && SameRow(s.deliveries[d], row) && Claimed(s, d) ==> !s.deliveries[e].status.Pending?
  }

  /** A redelivery keeps its row in order exactly when no later change to the row has been claimed yet. */
  lemma RedeliveryKeepsOrderIff(s: State, e: int)
    requires 0 <= e < |s.deliveries| && Ordered(s, s.deliveries[e])
    ensures Ordered(Redelivered(s, e), s.deliveries[e]) <==> forall d :: Behind(s, d, e) ==> !Claimed(s, d)
  {
    var after := Redelivered(s, e);
    assert forall x, y :: Behind(after, x, y) <==> Behind(s, x, y);
    assert forall x :: Claimed(after, x) <==> Claimed(s, x);
  }

  // ---------------------------------------------------------------- pausing

  /** The step records an attempt of one of the subscription's deliveries. */
  predicate RecordsFor(s: State, step: Step, sub: int) {
    && step.WriteRow? && HasClaim(s, step.c) && s.claims[step.c].phase.Deciding? && UpdateMatches(s, step.c)
    && s.deliveries[s.claims[step.c].delivery].sub == sub && sub in s.subs
  }

  predicate FailsForGood(s: State, step: Step, sub: int) {
    RecordsFor(s, step, sub) && !s.claims[step.c].phase.ok && s.claims[step.c].phase.count + 1 >= 8
  }

  predicate StartsAfresh(s: State, step: Step, sub: int) {
    (RecordsFor(s, step, sub) && s.claims[step.c].phase.ok) || (step.SwitchSub? && step.sub == sub && (!step.paused || sub !in s.subs))
  }

  /** How many of the subscription's deliveries have failed for good since one succeeded or it was let go on. */
  ghost function Streak(trace: seq<State>, steps: seq<Step>, sub: int, k: nat): nat
    requires k < |trace| == |steps| + 1
  {
    if k == 0 || StartsAfresh(trace[k - 1], steps[k - 1], sub) then 0
    else Streak(trace, steps, sub, k - 1) + if FailsForGood(trace[k - 1], steps[k - 1], sub) then 1 else 0
  }

  lemma SubsMove(s: State, step: Step, backoff: Backoff, sub: int)
    requires Enabled(s, step)
    ensures sub in s.subs ==> sub in Next(s, step, backoff).subs
    ensures sub in s.subs && FailsForGood(s, step, sub) ==>
              && Next(s, step, backoff).subs[sub].failures == s.subs[sub].failures + 1
              && Next(s, step, backoff).subs[sub].paused == (s.subs[sub].paused || s.subs[sub].failures + 1 >= PAUSE_AFTER)
    ensures sub in Next(s, step, backoff).subs && StartsAfresh(s, step, sub) && !step.SwitchSub? ==>
              sub in s.subs && Next(s, step, backoff).subs[sub] == s.subs[sub].(failures := 0)
    ensures sub in Next(s, step, backoff).subs && !FailsForGood(s, step, sub) && !StartsAfresh(s, step, sub) ==>
              && sub in s.subs && Next(s, step, backoff).subs[sub].failures == s.subs[sub].failures
              && (s.subs[sub].paused ==> Next(s, step, backoff).subs[sub].paused)
              && (!step.SwitchSub? ==> Next(s, step, backoff).subs[sub] == s.subs[sub])
  {
    if step.ClaimDue? {
      ClaimAllExact(s, step.chosen, step.started);
    }
  }

  /** In every run, five deliveries that failed for good, with no success between and nobody letting the subscription
      go on, leave it paused. */
  lemma {:induction false} FiveFailuresPause(trace: seq<State>, steps: seq<Step>, backoff: Backoff, sub: int, k: nat)
    requires Run(trace, steps, backoff) && k < |trace| && sub in trace[k].subs
    requires sub in trace[0].subs ==> 0 <= trace[0].subs[sub].failures
    ensures Streak(trace, steps, sub, k) <= trace[k].subs[sub].failures
    ensures 5 <= Streak(trace, steps, sub, k) ==> trace[k].subs[sub].paused
  {
    if k > 0 {
      SubsMove(trace[k - 1], steps[k - 1], backoff, sub);
      if sub in trace[k - 1].subs {
        FiveFailuresPause(trace, steps, backoff, sub, k - 1);
      }
    }
  }

  /** And where nobody switches it, nothing else does. */
  lemma {:induction false} PausedOnlyByFive(trace: seq<State>, steps: seq<Step>, backoff: Backoff, sub: int, k: nat)
    requires Run(trace, steps, backoff) && k < |trace| && sub in trace[0].subs && trace[0].subs[sub].failures == 0 && !trace[0].subs[sub].paused
    requires forall i :: 0 <= i < k ==> !(steps[i].SwitchSub? && steps[i].sub == sub)
    ensures sub in trace[k].subs && trace[k].subs[sub].failures == Streak(trace, steps, sub, k)
    ensures trace[k].subs[sub].paused <==> ReachedFive(trace, steps, sub, k)
  {
    if k > 0 {
      PausedOnlyByFive(trace, steps, backoff, sub, k - 1);
      SubsMove(trace[k - 1], steps[k - 1], backoff, sub);
    }
  }

  /** The streak has been five or more at some time. */
  ghost predicate ReachedFive(trace: seq<State>, steps: seq<Step>, sub: int, k: nat)
    requires k < |trace| == |steps| + 1
  {
    5 <= Streak(trace, steps, sub, k) || (k > 0 && ReachedFive(trace, steps, sub, k - 1))
  }

  // ---------------------------------------------------------------- runs that go wrong

  lemma Extended(trace: seq<State>, steps: seq<Step>, backoff: Backoff, step: Step, after: State)
    requires Run(trace, steps, backoff) && Enabled(trace[|trace| - 1], step) && Next(trace[|trace| - 1], step, backoff) == after
    ensures Run(trace + [after], steps + [step], backoff)
  {
    var trace', steps' := trace + [after], steps + [step];
    forall k | 0 <= k < |steps'| ensures Enabled(trace'[k], steps'[k]) && trace'[k + 1] == Next(trace'[k], steps'[k], backoff) {
      assert k < |steps| ==> steps'[k] == steps[k] && trace'[k] == trace[k] && trace'[k + 1] == trace[k + 1];
    }
  }

  const Receiver: map<int, Sub> := map[1 := Sub(true, false, 0)]

  /** One delivery, claimed at 0, with the claim at some point of its work. */
  function OneClaim(now: int, phase: Phase): State {
    State(now, [Delivery(1, 1, 1, 1, Pending, 0, Some(60_000_000), 0)], [Claim(0, 60_000_000, 0, 0, 0, phase)], [], Receiver)
  }

  lemma ClaimTheOnly(s: State, started: int)
    requires |s.deliveries| == 1 && Claimable(s, 0) && started <= s.now
    ensures Enabled(s, ClaimDue([0], started)) && ClaimAll(s, [0], started) == ClaimOne(s, 0, started)
  {
    assert [0][..0] == [];
    assert ClaimAll(s, [], started) == s;
  }

  predicate NoRedelivery(steps: seq<Step>) {
    forall step :: step in steps ==> !step.Redeliver?
  }

  lemma SendingIsReached(backoff: Backoff) returns (trace: seq<State>, steps: seq<Step>)
    ensures Run(trace, steps, backoff) && trace[|trace| - 1] == OneClaim(0, Sending(0)) && NoRedelivery(steps)
  {
    var made := Delivery(1, 1, 1, 1, Pending, 0, Some(0), 0);
    var s0 := Start(0, Receiver);
    var s1 := s0.(deliveries := [made]);
    trace, steps := [s0], [];
    Extended(trace, steps, backoff, FanOut([made]), s1);
    trace, steps := trace + [s1], steps + [FanOut([made])];
    ClaimTheOnly(s1, 0);
    assert ClaimOne(s1, 0, 0) == OneClaim(0, Waiting);
    Extended(trace, steps, backoff, ClaimDue([0], 0), OneClaim(0, Waiting));
    trace, steps := trace + [OneClaim(0, Waiting)], steps + [ClaimDue([0], 0)];
    Extended(trace, steps, backoff, BeginSend(0), OneClaim(0, Sending(0)));
    trace, steps := trace + [OneClaim(0, Sending(0))], steps + [BeginSend(0)];
  }

  /** A pass that is slow to record: answered at once, and nothing written by some later time. */
  lemma SlowPassIsReached(backoff: Backoff, now: nat) returns (trace: seq<State>, steps: seq<Step>)
    ensures Run(trace, steps, backoff) && trace[|trace| - 1] == OneClaim(now, Answered(false)) && NoRedelivery(steps)
  {
    trace, steps := SendingIsReached(backoff);
    Extended(trace, steps, backoff, EndSend(0, false), OneClaim(0, Answered(false)));
    trace, steps := trace + [OneClaim(0, Answered(false))], steps + [EndSend(0, false)];
    Extended(trace, steps, backoff, Tick(now), OneClaim(now, Answered(false)));
    trace, steps := trace + [OneClaim(now, Answered(false))], steps + [Tick(now)];
  }

  /** The last state of the run lets through the write of a claim that was superseded. */
  ghost predicate EndsStale(trace: seq<State>, steps: seq<Step>, backoff: Backoff) {
    && Run(trace, steps, backoff)
    && var s := trace[|trace| - 1];
       HasClaim(s, 0) && s.claims[0].phase.Deciding? && UpdateMatches(s, 0) && !Current(s, 0)
  }

  /** A second pass claims the row as the first lease ends, sends and is answered at once. */
  function TwoClaims(phase: Phase): State {
    State(60_000_000, [Delivery(1, 1, 1, 1, Pending, 0, Some(120_000_000), 0)],
          [Claim(0, 60_000_000, 0, 0, 0, Answered(false)), Claim(0, 120_000_000, 60_000_000, 0, 0, phase)], [], Receiver)
  }

  lemma SecondPassFails(before: seq<State>, did: seq<Step>, backoff: Backoff) returns (trace: seq<State>, steps: seq<Step>)
    requires Run(before, did, backoff) && before[|before| - 1] == OneClaim(60_000_000, Answered(false)) && NoRedelivery(did)
    ensures Run(trace, steps, backoff) && trace[|trace| - 1] == TwoClaims(Answered(false)) && NoRedelivery(steps)
  {
    trace, steps := before, did;
    ClaimTheOnly(OneClaim(60_000_000, Answered(false)), 60_000_000);
    var s1, s2, s3 := TwoClaims(Waiting), TwoClaims(Sending(60_000_000)), TwoClaims(Answered(false));
    Extended(trace, steps, backoff, ClaimDue([0], 60_000_000), s1);
    trace, steps := trace + [s1], steps + [ClaimDue([0], 60_000_000)];
    Extended(trace, steps, backoff, BeginSend(1), s2);
    trace, steps := trace + [s2], steps + [BeginSend(1)];
    Extended(trace, steps, backoff, EndSend(1, false), s3);
    trace, steps := trace + [s3], steps + [EndSend(1, false)];
  }

  /** A run whose second pass claims and fails at the very instant the first lease runs out, with a wait
      of zero: the row looks as the first pass left it. */
  lemma ZeroBackoffLetsAStaleWriteThrough(backoff: Backoff) returns (trace: seq<State>, steps: seq<Step>)
    requires backoff(1, 1) == 0
    ensures EndsStale(trace, steps, backoff) && NoRedelivery(steps)
  {
    trace, steps := SlowPassIsReached(backoff, 60_000_000);
    trace, steps := SecondPassFails(trace, steps, backoff);
    trace, steps := ChargedAtOnce(trace, steps, backoff);
    var s := ReadFor(BackToFirst(), 0);
    Extended(trace, steps, backoff, ReadRow(0), s);
    trace, steps := trace + [s], steps + [ReadRow(0)];
    assert s.claims[1].delivery == s.claims[0].delivery;
  }

  /** The second pass has recorded, and the row's next attempt is the first lease again. */
  function BackToFirst(): State {
    State(60_000_000, [Delivery(1, 1, 1, 1, Pending, 1, Some(60_000_000), 0)],
          [Claim(0, 60_000_000, 0, 0, 0, Answered(false)), Claim(0, 120_000_000, 60_000_000, 0, 0, Over)],
          [AttemptRow(1, 0, 0, 60_000_000, false)], Receiver)
  }

  lemma ChargedAtOnce(before: seq<State>, did: seq<Step>, backoff: Backoff) returns (trace: seq<State>, steps: seq<Step>)
    requires Run(before, did, backoff) && before[|before| - 1] == TwoClaims(Answered(false)) && NoRedelivery(did) && backoff(1, 1) == 0
    ensures Run(trace, steps, backoff) && trace[|trace| - 1] == BackToFirst() && NoRedelivery(steps)
  {
    var s := TwoClaims(Deciding(false, 0, 60_000_000));
    trace, steps := before + [s], did + [ReadRow(1)];
    Extended(before, did, backoff, ReadRow(1), s);
    assert Written(s, 1, backoff) == BackToFirst();
    Extended(trace, steps, backoff, WriteRow(1), BackToFirst());
    trace, steps := trace + [BackToFirst()], steps + [WriteRow(1)];
  }

  /** A redelivery at the instant an unfinished claim's lease runs out. */
  lemma RedeliveryAtTheLeaseLetsAStaleWriteThrough(backoff: Backoff) returns (trace: seq<State>, steps: seq<Step>)
    ensures EndsStale(trace, steps, backoff)
  {
    trace, steps := SlowPassIsReached(backoff, 60_000_000);
    var s1 := Redelivered(OneClaim(60_000_000, Answered(false)), 0);
    Extended(trace, steps, backoff, Redeliver(0), s1);
    trace, steps := trace + [s1], steps + [Redeliver(0)];
    Extended(trace, steps, backoff, ReadRow(0), ReadFor(s1, 0));
    trace, steps := trace + [ReadFor(s1, 0)], steps + [ReadRow(0)];
  }

  /** A redelivery and a new claim at the instant the first was made, as on a clock that stands still. */
  lemma SameInstantLetsAStaleWriteThrough(backoff: Backoff) returns (trace: seq<State>, steps: seq<Step>)
    ensures EndsStale(trace, steps, backoff)
  {
    trace, steps := SlowPassIsReached(backoff, 0);
    var s1 := Redelivered(OneClaim(0, Answered(false)), 0);
    ClaimTheOnly(s1, 0);
    var s2 := ClaimOne(s1, 0, 0);
    Extended(trace, steps, backoff, Redeliver(0), s1);
    trace, steps := trace + [s1], steps + [Redeliver(0)];
    Extended(trace, steps, backoff, ClaimDue([0], 0), s2);
    trace, steps := trace + [s2], steps + [ClaimDue([0], 0)];
    Extended(trace, steps, backoff, ReadRow(0), ReadFor(s2, 0));
    trace, steps := trace + [ReadFor(s2, 0)], steps + [ReadRow(0)];
  }

  /** A redelivery while its delivery is being sent: the next pass sends it as well, at the same time. */
  lemma RedeliveryInFlightIsSentTwice(backoff: Backoff) returns (trace: seq<State>, steps: seq<Step>)
    ensures Run(trace, steps, backoff)
    ensures var s := trace[|trace| - 1];
            && HasClaim(s, 0) && HasClaim(s, 1) && s.claims[0].delivery == s.claims[1].delivery
            && s.claims[0].phase.Sending? && s.claims[1].phase.Sending?
  {
    trace, steps := SendingIsReached(backoff);
    var s1 := Redelivered(OneClaim(0, Sending(0)), 0);
    ClaimTheOnly(s1, 0);
    var s2 := ClaimOne(s1, 0, 0);
    var s3 := InPhase(s2, 1, Sending(0));
    Extended(trace, steps, backoff, Redeliver(0), s1);
    trace, steps := trace + [s1], steps + [Redeliver(0)];
    Extended(trace, steps, backoff, ClaimDue([0], 0), s2);
    trace, steps := trace + [s2], steps + [ClaimDue([0], 0)];
    Extended(trace, steps, backoff, BeginSend(1), s3);
    trace, steps := trace + [s3], steps + [BeginSend(1)];
  }
}
