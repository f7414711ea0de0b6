/** Idempotency keys (backend/app/core/idempotency.py: claim, _answer, _expired, _settle, storable,
    purge_expired). A request's claim commits or rolls back with what the request did, in one step; the
    response is recorded in a later one, or never. */
module Idempotency {
  import opened Sequences

  const KEY_LIMIT: int := 255

  datatype Key = Key(caller: int, text: string)

  datatype Response = Response(status: int, content: int)

  datatype Record = Record(hash: int, created: int, response: Option<Response>)

  /** A request that claimed its key and has not settled. committed is whether its transaction did. */
  datatype Owner = Owner(key: Key, hash: int, committed: bool)

  /** Something a keyed request did, with the time its key was claimed. */
  datatype Effect = Effect(key: Key, hash: int, at: int)

  datatype State = State(now: int, retention: int, records: map<Key, Record>, owners: map<int, Owner>, effects: seq<Effect>)

  /** What claim does with a request: lets it run as the owner of its key, or answers it. */
  datatype Answer = Claimed | Malformed | Reused | InProgress | Replayed(response: Response)

  predicate KeyIsValid(key: string) {
    1 <= |key| <= KEY_LIMIT && forall i :: 0 <= i < |key| ==> ' ' <= key[i] <= '~'
  }

  predicate Storable(status: int) {
    200 <= status < 300 || (400 <= status < 500 && status !in {401, 403, 429})
  }

  /** The response went out whole, with a status worth keeping. */
  predicate Kept(sent: Option<Response>) {
    sent.Some? && Storable(sent.value.status)
  }

  predicate Expired(record: Record, now: int, retention: int) {
    record.created <= now - retention
  }

  /** The key's record, where it still counts. */
  predicate Held(s: State, key: Key) {
    key in s.records && !Expired(s.records[key], s.now, s.retention)
  }

  /** What a record says to a request under its key. */
  function Answered(record: Record, hash: int): Answer {
    if record.hash != hash then Reused
    else if record.response.None? then InProgress
    else Replayed(record.response.value)
  }

  function AnswerTo(s: State, key: Key, hash: int): Answer {
    if !KeyIsValid(key.text) then Malformed
    else if !Held(s, key) then Claimed
    else Answered(s.records[key], hash)
  }

  /** A key is turned away exactly when it is empty, over 255 characters, or has one that is not printable ASCII. */
  lemma MalformedIff(s: State, key: Key, hash: int)
    ensures AnswerTo(s, key, hash) == Malformed <==>
            key.text == [] || 255 < |key.text| || exists c :: c in key.text && ((c as int) < 32 || 126 < (c as int))
  {
    if exists c :: c in key.text && ((c as int) < 32 || 126 < (c as int)) {
      var c :| c in key.text && ((c as int) < 32 || 126 < (c as int));
      var i :| 0 <= i < |key.text| && key.text[i] == c;
    }
    assert forall i :: 0 <= i < |key.text| ==> key.text[i] in key.text;
  }

  /** A key is there to be claimed exactly when it has no record, or one a whole retention window old. */
  lemma ClaimedIff(s: State, key: Key, hash: int)
    requires KeyIsValid(key.text)
    ensures AnswerTo(s, key, hash) == Claimed <==> (key in s.records ==> s.records[key].created + s.retention <= s.now)
    ensures AnswerTo(s, key, hash) == InProgress ==> key in s.records && s.records[key].hash == hash && s.records[key].response == None
    ensures AnswerTo(s, key, hash) == Reused ==> key in s.records && s.records[key].hash != hash
  {
  }

  // ---------------------------------------------------------------- steps

  datatype Step =
    | Elapse(lapse: int)
    | Request(id: int, key: Key, hash: int, commits: bool)
    | Settle(id: int, sent: Option<Response>)
    | Die(id: int)
    | Purge

  predicate Enabled(s: State, step: Step) {
    match step
    case Elapse(lapse) => 0 <= lapse
    case Request(id, _, _, _) => id !in s.owners
    case Settle(id, _) => id in s.owners
    case Die(id) => id in s.owners
    case Purge => true
  }

  /** The record under a key once its owner has settled: the key's own record is told by its hash alone. */
  function Settled(records: map<Key, Record>, owner: Owner, sent: Option<Response>, now: int): map<Key, Record> {
    if owner.key in records && records[owner.key].hash != owner.hash then records
    else if Kept(sent) then
      var created := if owner.key in records then records[owner.key].created else now;
      records[owner.key := Record(owner.hash, created, sent)]
    else if owner.key in records && records[owner.key].response.None? then records - {owner.key}
    else records
  }

  function Purged(records: map<Key, Record>, limit: int): map<Key, Record> {
    map key | key in records && limit <= records[key].created :: records[key]
  }

  /** A claim that is rolled back leaves the table as it was, an expired record included. */
  function Requested(s: State, id: int, key: Key, hash: int, commits: bool): State {
    if !AnswerTo(s, key, hash).Claimed? then s
    else if commits then
      s.(records := s.records[key := Record(hash, s.now, None)], owners := s.owners[id := Owner(key, hash, true)],
         effects := s.effects + [Effect(key, hash, s.now)])
    else s.(owners := s.owners[id := Owner(key, hash, false)])
  }

  function Next(s: State, step: Step): State
    requires Enabled(s, step)
  {
    match step
    case Elapse(lapse) => s.(now := s.now + lapse)
    case Request(id, key, hash, commits) => Requested(s, id, key, hash, commits)
    case Settle(id, sent) => s.(records := Settled(s.records, s.owners[id], sent, s.now), owners := s.owners - {id})
    case Die(id) => s.(owners := s.owners - {id})
    case Purge => s.(records := Purged(s.records, s.now - s.retention))
  }

  ghost predicate Runs(s: State, steps: seq<Step>)
    decreases |steps|
  {
    steps == [] || (Enabled(s, steps[0]) && Runs(Next(s, steps[0]), steps[1..]))
  }

  ghost function After(s: State, steps: seq<Step>): State
    requires Runs(s, steps)
    decreases |steps|
  {
    if steps == [] then s else After(Next(s, steps[0]), steps[1..])
  }

  function Start(now: int, retention: int): State {
    State(now, retention, map[], map[], [])
  }

  lemma {:induction false} RunGrows(s: State, steps: seq<Step>)
    requires Runs(s, steps)
    ensures s.now <= After(s, steps).now && After(s, steps).retention == s.retention && s.effects <= After(s, steps).effects
    decreases |steps|
  {
    if steps != [] {
      RunGrows(Next(s, steps[0]), steps[1..]);
    }
  }

  // ---------------------------------------------------------------- at most once

  predicate Recent(s: State, e: Effect) {
    s.now - s.retention < e.at
  }

  /** While an effect is inside its window, the record of the claim that did it is there. */
  predicate Remembers(s: State, i: int)
    requires 0 <= i < |s.effects|
  {
    var e := s.effects[i];
    Recent(s, e) ==> KeyIsValid(e.key.text) && e.key in s.records && s.records[e.key].created == e.at && s.records[e.key].hash == e.hash
  }

  /** The settling that lets go of the claim an effect was done under: the response is not kept, and the record
      it finds under the effect's key has its own hash and no response, inside the window. */
  predicate Drops(s: State, step: Step, i: int)
    requires 0 <= i < |s.effects|
  {
    && step.Settle? && step.id in s.owners && !Kept(step.sent) && Recent(s, s.effects[i])
    && var owner := s.owners[step.id];
       && owner.key == s.effects[i].key && owner.key in s.records
       && s.records[owner.key].hash == owner.hash && s.records[owner.key].response.None?
  }

  /** No request under the effect's key that could come next would do anything before its window is over. */
  ghost predicate CannotRepeat(s: State, i: int)
    requires 0 <= i < |s.effects|
  {
    forall id, hash :: Requested(s, id, s.effects[i].key, hash, true).effects == s.effects || !Recent(s, s.effects[i])
  }

  /** Every step but such a settling keeps the effect remembered, and that one never does. */
  lemma StepKeepsIff(s: State, step: Step, i: int)
    requires 0 <= i < |s.effects| && Remembers(s, i) && Enabled(s, step)
    ensures s.effects <= Next(s, step).effects
    ensures Remembers(Next(s, step), i) <==> !Drops(s, step, i)
  {
  }

  /** After it, the same request does the same thing again at once. */
  lemma DroppedRunsAgain(s: State, step: Step, i: int)
    requires 0 <= i < |s.effects| && Remembers(s, i) && Enabled(s, step) && Drops(s, step, i)
    ensures !CannotRepeat(Next(s, step), i)
  {
    var after, e := Next(s, step), s.effects[i];
    assert AnswerTo(after, e.key, e.hash).Claimed?;
    assert |Requested(after, 0, e.key, e.hash, true).effects| == |s.effects| + 1;
  }

  ghost predicate NothingDropped(s: State, steps: seq<Step>, i: int)
    requires Runs(s, steps) && 0 <= i < |s.effects|
    decreases |steps|
  {
    steps == [] || (!Drops(s, steps[0], i) && NothingDropped(Next(s, steps[0]), steps[1..], i))
  }

  /** At no point of the run could a request under the effect's key have done a second thing inside its window. */
  ghost predicate NeverRepeats(s: State, steps: seq<Step>, i: int)
    requires Runs(s, steps) && 0 <= i < |s.effects|
    decreases |steps|
  {
    CannotRepeat(s, i) && (steps == [] || NeverRepeats(Next(s, steps[0]), steps[1..], i))
  }

  lemma {:induction false} NeverRepeatsIff(s: State, steps: seq<Step>, i: int)
    requires Runs(s, steps) && 0 <= i < |s.effects| && Remembers(s, i)
    ensures NeverRepeats(s, steps, i) <==> NothingDropped(s, steps, i)
    decreases |steps|
  {
    assert CannotRepeat(s, i);
    if steps != [] {
      StepKeepsIff(s, steps[0], i);
      if Drops(s, steps[0], i) {
        DroppedRunsAgain(s, steps[0], i);
      } else {
        NeverRepeatsIff(Next(s, steps[0]), steps[1..], i);
      }
    }
  }

  lemma {:induction false} StaysRemembered(s: State, steps: seq<Step>, i: int)
    requires Runs(s, steps) && 0 <= i < |s.effects| && Remembers(s, i) && NothingDropped(s, steps, i)
    ensures s.effects <= After(s, steps).effects && Remembers(After(s, steps), i)
    decreases |steps|
  {
    if steps != [] {
      StepKeepsIff(s, steps[0], i);
      StaysRemembered(Next(s, steps[0]), steps[1..], i);
    }
  }

  lemma {:induction false} LaterIsApart(s: State, steps: seq<Step>, i: int, j: int)
    requires Runs(s, steps) && 0 <= i < |s.effects| && Remembers(s, i) && NothingDropped(s, steps, i)
    requires |s.effects| <= j < |After(s, steps).effects| && After(s, steps).effects[j].key == s.effects[i].key
    ensures s.effects[i].at + s.retention <= After(s, steps).effects[j].at
    decreases |steps|
  {
    if steps != [] {
      var next := Next(s, steps[0]);
      StepKeepsIff(s, steps[0], i);
      RunGrows(next, steps[1..]);
      if |next.effects| <= j {
        LaterIsApart(next, steps[1..], i, j);
      }
    }
  }

  /** A request that claims its key and commits, whatever came before it, under this key or any other. */
  predicate Does(s: State, id: int, key: Key, hash: int) {
    id !in s.owners && AnswerTo(s, key, hash).Claimed?
  }

  /** At most once, exactly. From the moment something is done under a key, no request that could come next would
      do a second thing under it inside the window, at any point of any run, if and only if no settling in the
      run drops that very claim. */
  lemma AtMostOnceIff(s: State, id: int, key: Key, hash: int, steps: seq<Step>)
    requires Does(s, id, key, hash) && Runs(Requested(s, id, key, hash, true), steps)
    ensures NeverRepeats(Requested(s, id, key, hash, true), steps, |s.effects|)
       <==> NothingDropped(Requested(s, id, key, hash, true), steps, |s.effects|)
  {
    NeverRepeatsIff(Requested(s, id, key, hash, true), steps, |s.effects|);
  }

  /** Then whatever is done under the key later was claimed a whole retention window after it. */
  lemma AtMostOncePerWindow(s: State, id: int, key: Key, hash: int, steps: seq<Step>, j: int)
    requires Does(s, id, key, hash) && Runs(Requested(s, id, key, hash, true), steps)
    requires NothingDropped(Requested(s, id, key, hash, true), steps, |s.effects|)
    requires |s.effects| < j < |After(Requested(s, id, key, hash, true), steps).effects|
    requires After(Requested(s, id, key, hash, true), steps).effects[j].key == key
    ensures s.now + s.retention <= After(Requested(s, id, key, hash, true), steps).effects[j].at
  {
    LaterIsApart(Requested(s, id, key, hash, true), steps, |s.effects|, j);
  }

  /** And until then a retry is answered with what is recorded or told to wait, any other request under the key is
      refused, and neither does anything. */
  lemma RetriesAreAnswered(s: State, id: int, key: Key, hash: int, steps: seq<Step>, retry: int, sent: int, commits: bool)
    requires Does(s, id, key, hash) && Runs(Requested(s, id, key, hash, true), steps)
    requires NothingDropped(Requested(s, id, key, hash, true), steps, |s.effects|)
    requires After(Requested(s, id, key, hash, true), steps).now < s.now + s.retention
    ensures var after := After(Requested(s, id, key, hash, true), steps);
      && key in after.records
      && AnswerTo(after, key, sent) == Answered(after.records[key], sent)
      && (AnswerTo(after, key, sent) == Reused <==> sent != hash)
      && Requested(after, retry, key, sent, commits) == after
  {
    RunGrows(Requested(s, id, key, hash, true), steps);
    StaysRemembered(Requested(s, id, key, hash, true), steps, |s.effects|);
  }

  // ---------------------------------------------------------------- one key over a whole run

  ghost predicate DropsUnder(s: State, step: Step, key: Key) {
    exists i :: 0 <= i < |s.effects| && s.effects[i].key == key && Drops(s, step, i)
  }

  ghost predicate NoneDropped(s: State, steps: seq<Step>, key: Key)
    requires Runs(s, steps)
    decreases |steps|
  {
    steps == [] || (!DropsUnder(s, steps[0], key) && NoneDropped(Next(s, steps[0]), steps[1..], key))
  }

  ghost predicate InvFor(s: State, key: Key) {
    && (forall i :: 0 <= i < |s.effects| && s.effects[i].key == key ==> Remembers(s, i))
    && (forall i, j :: 0 <= i < j < |s.effects| && s.effects[i].key == key && s.effects[j].key == key ==>
          s.effects[i].at + s.retention <= s.effects[j].at)
  }

  /** Whatever happens to other keys: one key is remembered and kept apart by a step exactly when the step drops
      no claim of its own. */
  lemma StepKeepsKeyIff(s: State, step: Step, key: Key)
    requires InvFor(s, key) && Enabled(s, step)
    ensures InvFor(Next(s, step), key) <==> !DropsUnder(s, step, key)
  {
    var after := Next(s, step);
    forall i | 0 <= i < |s.effects| && s.effects[i].key == key
      ensures after.effects[i] == s.effects[i] && (Remembers(after, i) <==> !Drops(s, step, i))
    {
      StepKeepsIff(s, step, i);
    }
  }

  lemma {:induction false} KeyKept(s: State, steps: seq<Step>, key: Key)
    requires InvFor(s, key) && Runs(s, steps) && NoneDropped(s, steps, key)
    ensures InvFor(After(s, steps), key) && After(s, steps).retention == s.retention
    decreases |steps|
  {
    if steps != [] {
      StepKeepsKeyIff(s, steps[0], key);
      KeyKept(Next(s, steps[0]), steps[1..], key);
    }
  }

  /** In every run in which no claim of the key is dropped, all that is done under it is a window apart. */
  lemma AtMostOnceUnderKey(now: int, retention: int, steps: seq<Step>, i: int, j: int)
    requires Runs(Start(now, retention), steps)
    requires 0 <= i < j < |After(Start(now, retention), steps).effects|
    requires After(Start(now, retention), steps).effects[i].key == After(Start(now, retention), steps).effects[j].key
    requires NoneDropped(Start(now, retention), steps, After(Start(now, retention), steps).effects[i].key)
    ensures After(Start(now, retention), steps).effects[i].at + retention <= After(Start(now, retention), steps).effects[j].at
  {
    KeyKept(Start(now, retention), steps, After(Start(now, retention), steps).effects[i].key);
  }

  // ---------------------------------------------------------------- requests that take turns

  predicate Claiming(s: State, key: Key) {
    exists id :: id in s.owners && s.owners[id].key == key
  }

  /** The key is claimed only once its last owner has settled or died. */
  predicate TakesTurns(s: State, step: Step, key: Key) {
    step.Request? && step.key == key && AnswerTo(s, key, step.hash).Claimed? ==> !Claiming(s, key)
  }

  /** A request under the key that committed something answers whole and with a status that is kept, if it answers. */
  predicate KeepsItsWord(s: State, step: Step, key: Key)
    requires Enabled(s, step)
  {
    step.Settle? && s.owners[step.id].key == key && s.owners[step.id].committed ==> Kept(step.sent)
  }

  ghost predicate TurnsTaken(s: State, steps: seq<Step>, key: Key)
    requires Runs(s, steps)
    decreases |steps|
  {
    steps == [] || (TakesTurns(s, steps[0], key) && TurnsTaken(Next(s, steps[0]), steps[1..], key))
  }

  ghost predicate WordKept(s: State, steps: seq<Step>, key: Key)
    requires Runs(s, steps)
    decreases |steps|
  {
    steps == [] || (KeepsItsWord(s, steps[0], key) && WordKept(Next(s, steps[0]), steps[1..], key))
  }

  /** The key has one owner at most, and a record still held under it is that owner's own committed claim, not
      answered yet. */
  ghost predicate Owned(s: State, key: Key) {
    && (forall i, j :: i in s.owners && j in s.owners && s.owners[i].key == key && s.owners[j].key == key ==> i == j)
    && (forall id :: id in s.owners && s.owners[id].key == key && Held(s, key) ==>
          s.owners[id].committed && s.records[key].hash == s.owners[id].hash && s.records[key].response.None?)
  }

  lemma {:induction false} NothingDroppedInTurn(s: State, steps: seq<Step>, key: Key, i: int)
    requires Owned(s, key) && Runs(s, steps) && TurnsTaken(s, steps, key) && WordKept(s, steps, key)
    requires 0 <= i < |s.effects| && s.effects[i].key == key && Remembers(s, i)
    ensures NothingDropped(s, steps, i)
    decreases |steps|
  {
    if steps != [] {
      assert !Drops(s, steps[0], i);
      StepKeepsIff(s, steps[0], i);
      NothingDroppedInTurn(Next(s, steps[0]), steps[1..], key, i);
    }
  }

  /** Where the key's owners settle or die before its next claim, and none that committed answers with a response
      that is not kept, nothing under the key is dropped, and all of the above holds. */
  lemma InTurnNeverRepeats(s: State, id: int, key: Key, hash: int, steps: seq<Step>)
    requires Does(s, id, key, hash) && !Claiming(s, key) && Runs(Requested(s, id, key, hash, true), steps)
    requires TurnsTaken(Requested(s, id, key, hash, true), steps, key) && WordKept(Requested(s, id, key, hash, true), steps, key)
    ensures NothingDropped(Requested(s, id, key, hash, true), steps, |s.effects|)
    ensures NeverRepeats(Requested(s, id, key, hash, true), steps, |s.effects|)
  {
    NothingDroppedInTurn(Requested(s, id, key, hash, true), steps, key, |s.effects|);
    AtMostOnceIff(s, id, key, hash, steps);
  }

  // ---------------------------------------------------------------- the first answer

  /** Settling by an owner of the key with the record's hash, with another response to keep or none to. */
  predicate Overwrites(s: State, step: Step, key: Key) {
    && step.Settle? && step.id in s.owners && s.owners[step.id].key == key
    && key in s.records && s.records[key].hash == s.owners[step.id].hash
    && if Kept(step.sent) then s.records[key].response != step.sent else s.records[key].response.None?
  }

  /** Until a record expires, a step leaves it as it is exactly when it is not such a settling. */
  lemma RecordStaysIff(s: State, step: Step, key: Key)
    requires Enabled(s, step) && key in s.records && !Expired(s.records[key], Next(s, step).now, s.retention)
    ensures key in Next(s, step).records && Next(s, step).records[key] == s.records[key] <==> !Overwrites(s, step, key)
  {
  }

  ghost predicate NeverOverwritten(s: State, steps: seq<Step>, key: Key)
    requires Runs(s, steps)
    decreases |steps|
  {
    steps == [] || (!Overwrites(s, steps[0], key) && NeverOverwritten(Next(s, steps[0]), steps[1..], key))
  }

  /** A record that nobody settles over says the same until it expires: the first response recorded is replayed
      to every retry, and a claim left without one is never answered. */
  lemma {:induction false} FirstAnswerStands(s: State, steps: seq<Step>, key: Key)
    requires Runs(s, steps) && NeverOverwritten(s, steps, key)
    requires key in s.records && !Expired(s.records[key], After(s, steps).now, s.retention)
    ensures forall hash :: AnswerTo(After(s, steps), key, hash) == AnswerTo(s, key, hash)
    decreases |steps|
  {
    RunGrows(s, steps);
    if steps != [] {
      var next := Next(s, steps[0]);
      RunGrows(next, steps[1..]);
      RecordStaysIff(s, steps[0], key);
      FirstAnswerStands(next, steps[1..], key);
      assert forall hash :: AnswerTo(next, key, hash) == AnswerTo(s, key, hash);
    }
  }

  /** Where requests under the key take turns, nobody settles over a record whose owner has settled or died. */
  lemma {:induction false} NeverOverwrittenInTurn(s: State, steps: seq<Step>, key: Key)
    requires Runs(s, steps) && TurnsTaken(s, steps, key)
    requires key in s.records && !Claiming(s, key) && !Expired(s.records[key], After(s, steps).now, s.retention)
    ensures NeverOverwritten(s, steps, key)
    decreases |steps|
  {
    if steps != [] {
      var next := Next(s, steps[0]);
      RunGrows(next, steps[1..]);
      RecordStaysIff(s, steps[0], key);
      assert !Claiming(next, key);
      NeverOverwrittenInTurn(next, steps[1..], key);
    }
  }

  /** What settling leaves of a claim that committed: the response to replay exactly where it went out whole as a
      success or as a client error that waiting or signing in cannot mend; otherwise the key is free again and a
      retry runs. */
  lemma CommittedClaimIsKeptIff(s: State, id: int, sent: Option<Response>)
    requires id in s.owners && KeyIsValid(s.owners[id].key.text) && Held(s, s.owners[id].key)
    requires s.records[s.owners[id].key].hash == s.owners[id].hash && s.records[s.owners[id].key].response.None?
    ensures AnswerTo(Next(s, Settle(id, sent)), s.owners[id].key, s.owners[id].hash) ==
            match sent
            case None => Claimed
            case Some(response) =>
              if 200 <= response.status <= 299 then Replayed(response)
              else if response.status < 400 || 499 < response.status then Claimed
              else if response.status == 401 || response.status == 403 || response.status == 429 then Claimed
              else Replayed(response)
  {
  }

  /** A settling that drops a claim is of a response that broke off, or of one that is neither a success nor a
      client error, or of a 401, a 403 or a 429. */
  lemma DropsNoSuccess(s: State, id: int, sent: Option<Response>, i: int)
    requires 0 <= i < |s.effects| && Drops(s, Settle(id, sent), i)
    ensures sent.Some? ==> var status := sent.value.status;
      !(200 <= status <= 299) && (400 <= status <= 499 ==> status == 401 || status == 403 || status == 429)
  {
  }

  /** Every response that is recorded is a success. */
  predicate Succeeds(step: Step) {
    step.Settle? ==> step.sent.Some? && 200 <= step.sent.value.status <= 299
  }

  lemma {:induction false} SuccessesKeepTheirWord(s: State, steps: seq<Step>, key: Key)
    requires Runs(s, steps) && forall step :: step in steps ==> Succeeds(step)
    ensures WordKept(s, steps, key)
    decreases |steps|
  {
    if steps != [] {
      assert Succeeds(steps[0]);
      SuccessesKeepTheirWord(Next(s, steps[0]), steps[1..], key);
    }
  }

  /** Where requests under a key take turns and whatever is settled answered between 200 and 299, nothing is done
      twice under it, whatever else goes on. */
  lemma SuccessesAreNotRepeated(s: State, id: int, key: Key, hash: int, steps: seq<Step>)
    requires Does(s, id, key, hash) && !Claiming(s, key) && Runs(Requested(s, id, key, hash, true), steps)
    requires TurnsTaken(Requested(s, id, key, hash, true), steps, key) && forall step :: step in steps ==> Succeeds(step)
    ensures NeverRepeats(Requested(s, id, key, hash, true), steps, |s.effects|)
  {
    SuccessesKeepTheirWord(Requested(s, id, key, hash, true), steps, key);
    InTurnNeverRepeats(s, id, key, hash, steps);
  }

  // ---------------------------------------------------------------- where the conditions are needed

  /** Out of turn: the first request rolls back, the second commits under the same key, and the first,
      settling late with a 500, drops the second's claim. A third does the same thing again. */
  lemma LateOwnerDropsAnothersClaim(key: Key, hash: int, retention: int)
    requires KeyIsValid(key.text) && 0 < retention
    ensures var steps := [Request(0, key, hash, false), Request(1, key, hash, true), Settle(0, Some(Response(500, 0))), Request(2, key, hash, true)];
      && Runs(Start(0, retention), steps) && WordKept(Start(0, retention), steps, key) && !TurnsTaken(Start(0, retention), steps, key)
      && After(Start(0, retention), steps).effects == [Effect(key, hash, 0), Effect(key, hash, 0)]
  {
    var s := Start(0, retention);
    var a, b, c, d := Request(0, key, hash, false), Request(1, key, hash, true), Settle(0, Some(Response(500, 0))), Request(2, key, hash, true);
    var s1 := Next(s, a);
    var s2 := Next(s1, b);
    var s3 := Next(s2, c);
    var s4 := Next(s3, d);
    assert s1.owners[0].key == key;
    assert key !in s3.records;
    FourSteps(s, a, b, c, d, key);
    assert !TakesTurns(s1, b, key);
  }

  /** Out of word: a request that committed and answered 500 runs again. */
  lemma UnkeptAnswerRunsAgain(key: Key, hash: int, retention: int)
    requires KeyIsValid(key.text) && 0 < retention
    ensures var steps := [Request(0, key, hash, true), Settle(0, Some(Response(500, 0))), Purge, Request(1, key, hash, true)];
      && Runs(Start(0, retention), steps) && TurnsTaken(Start(0, retention), steps, key) && !WordKept(Start(0, retention), steps, key)
      && After(Start(0, retention), steps).effects == [Effect(key, hash, 0), Effect(key, hash, 0)]
  {
    var s := Start(0, retention);
    var a, b, c, d := Request(0, key, hash, true), Settle(0, Some(Response(500, 0))), Purge, Request(1, key, hash, true);
    var s1 := Next(s, a);
    var s2 := Next(s1, b);
    var s3 := Next(s2, c);
    assert key !in s3.records;
    FourSteps(s, a, b, c, d, key);
    assert !KeepsItsWord(s1, b, key);
  }

  lemma OneStep(s: State, a: Step, key: Key)
    requires Enabled(s, a)
    ensures Runs(s, [a]) && After(s, [a]) == Next(s, a)
    ensures TurnsTaken(s, [a], key) <==> TakesTurns(s, a, key)
    ensures WordKept(s, [a], key) <==> KeepsItsWord(s, a, key)
  {
    assert [a][1..] == [];
    assert After(Next(s, a), []) == Next(s, a);
  }

  /** Four steps unrolled. */
  lemma FourSteps(s: State, a: Step, b: Step, c: Step, d: Step, key: Key)
    requires Enabled(s, a) && Enabled(Next(s, a), b) && Enabled(Next(Next(s, a), b), c) && Enabled(Next(Next(Next(s, a), b), c), d)
    ensures Runs(s, [a, b, c, d])
    ensures After(s, [a, b, c, d]) == Next(Next(Next(Next(s, a), b), c), d)
    ensures TurnsTaken(s, [a, b, c, d], key) <==>
              && TakesTurns(s, a, key) && TakesTurns(Next(s, a), b, key)
              && TakesTurns(Next(Next(s, a), b), c, key) && TakesTurns(Next(Next(Next(s, a), b), c), d, key)
    ensures WordKept(s, [a, b, c, d], key) <==>
              && KeepsItsWord(s, a, key) && KeepsItsWord(Next(s, a), b, key)
              && KeepsItsWord(Next(Next(s, a), b), c, key) && KeepsItsWord(Next(Next(Next(s, a), b), c), d, key)
  {
    var s1, s2, s3 := Next(s, a), Next(Next(s, a), b), Next(Next(Next(s, a), b), c);
    assert [a, b, c, d][1..] == [b, c, d] && [b, c, d][1..] == [c, d] && [c, d][1..] == [d] && [d][1..] == [];
    assert Runs(s3, [d]) && Runs(s2, [c, d]) && Runs(s1, [b, c, d]);
    OneStep(s3, d, key);
    assert After(s2, [c, d]) == After(s3, [d]) && After(s1, [b, c, d]) == After(s2, [c, d]);
    assert TurnsTaken(s2, [c, d], key) <==> TakesTurns(s2, c, key) && TurnsTaken(s3, [d], key);
    assert WordKept(s2, [c, d], key) <==> KeepsItsWord(s2, c, key) && WordKept(s3, [d], key);
  }

  // ---------------------------------------------------------------- purging

  /** Purging changes the answer to no request, whatever its key and hash. */
  lemma PurgeChangesNoAnswer(s: State, key: Key, hash: int)
    ensures AnswerTo(Next(s, Purge), key, hash) == AnswerTo(s, key, hash)
  {
  }

  /** Settling a response that is kept over a record old enough to be purged. */
  predicate SettlesOverOld(s: State, step: Step) {
    && step.Settle? && step.id in s.owners && Kept(step.sent)
    && s.owners[step.id].key in s.records && s.records[s.owners[step.id].key].created < s.now - s.retention
  }

  /** A purge just before a settling changes no answer after it, exactly when the settling is not one of those. */
  lemma PurgeBeforeSettlingIff(s: State, id: int, sent: Option<Response>)
    requires id in s.owners && KeyIsValid(s.owners[id].key.text) && 0 < s.retention
    ensures (forall key, hash :: AnswerTo(Next(Next(s, Purge), Settle(id, sent)), key, hash) == AnswerTo(Next(s, Settle(id, sent)), key, hash))
       <==> !SettlesOverOld(s, Settle(id, sent))
  {
    var a, b := Next(Next(s, Purge), Settle(id, sent)), Next(s, Settle(id, sent));
    var owner := s.owners[id];
    if SettlesOverOld(s, Settle(id, sent)) {
      assert AnswerTo(a, owner.key, owner.hash) == Replayed(sent.value);
      assert AnswerTo(b, owner.key, owner.hash) == Claimed;
    } else {
      forall key, hash ensures AnswerTo(a, key, hash) == AnswerTo(b, key, hash) {
        assert key != owner.key ==> (key in a.records <==> key in s.records && s.now - s.retention <= s.records[key].created);
      }
    }
  }

  /** t is s with some records gone that are old enough to be purged. */
  ghost predicate SameButOld(s: State, t: State) {
    && t == s.(records := t.records)
    && (forall key :: key in t.records ==> key in s.records && t.records[key] == s.records[key])
    && (forall key :: key in s.records && key !in t.records ==> s.records[key].created < s.now - s.retention)
  }

  ghost predicate NoneOverOld(s: State, steps: seq<Step>)
    requires Runs(s, steps)
    decreases |steps|
  {
    steps == [] || (!SettlesOverOld(s, steps[0]) && NoneOverOld(Next(s, steps[0]), steps[1..]))
  }

  lemma {:induction false} RunsAlike(s: State, t: State, steps: seq<Step>)
    requires SameButOld(s, t) && Runs(s, steps) && NoneOverOld(s, steps)
    ensures Runs(t, steps) && SameButOld(After(s, steps), After(t, steps))
    decreases |steps|
  {
    if steps != [] {
      RunsAlike(Next(s, steps[0]), Next(t, steps[0]), steps[1..]);
    }
  }

  /** Nor does it change any later answer or effect, over any run with no such settling. */
  lemma PurgeChangesNoLaterAnswer(s: State, steps: seq<Step>, key: Key, hash: int)
    requires Runs(s, steps) && NoneOverOld(s, steps)
    ensures Runs(Next(s, Purge), steps)
    ensures AnswerTo(After(Next(s, Purge), steps), key, hash) == AnswerTo(After(s, steps), key, hash)
    ensures After(Next(s, Purge), steps).effects == After(s, steps).effects
  {
    RunsAlike(s, Next(s, Purge), steps);
  }

  // One key alone: what is settled under other keys may have come out differently.

  ghost predicate NoneOverOldUnder(s: State, steps: seq<Step>, key: Key)
    requires Runs(s, steps)
    decreases |steps|
  {
    steps == [] || (!(SettlesOverOld(s, steps[0]) && s.owners[steps[0].id].key == key) && NoneOverOldUnder(Next(s, steps[0]), steps[1..], key))
  }

  function OwnerUnder(s: State, id: int, key: Key): Option<Owner> {
    if id in s.owners && s.owners[id].key == key then Some(s.owners[id]) else None
  }

  function DoneUnder(effects: seq<Effect>, key: Key): seq<Effect> {
    Filter(effects, (e: Effect) => e.key == key)
  }

  /** Under the key t is as s, but for a record that may be gone because it is old enough to be purged. */
  ghost predicate AlikeUnder(s: State, t: State, key: Key) {
    && t.now == s.now && t.retention == s.retention
    && (forall id :: OwnerUnder(s, id, key) == OwnerUnder(t, id, key))
    && (key in t.records ==> key in s.records && t.records[key] == s.records[key])
    && (key in s.records && key !in t.records ==> s.records[key].created < s.now - s.retention)
  }

  lemma AnswerAlikeUnder(s: State, t: State, key: Key, hash: int)
    requires AlikeUnder(s, t, key)
    ensures AnswerTo(s, key, hash) == AnswerTo(t, key, hash)
  {
  }

  lemma OwnersAlikeUnder(s: State, t: State, step: Step, key: Key, id: int)
    requires AlikeUnder(s, t, key) && Enabled(s, step) && Enabled(t, step)
    ensures OwnerUnder(Next(s, step), id, key) == OwnerUnder(Next(t, step), id, key)
  {
    assert OwnerUnder(s, id, key) == OwnerUnder(t, id, key);
    if step.Request? && step.key == key {
      AnswerAlikeUnder(s, t, key, step.hash);
    }
  }

  lemma SettledAlikeUnder(s: State, t: State, id: int, sent: Option<Response>, key: Key)
    requires AlikeUnder(s, t, key) && id in s.owners && id in t.owners
    requires !(SettlesOverOld(s, Settle(id, sent)) && s.owners[id].key == key)
    ensures var a, b := Settled(s.records, s.owners[id], sent, s.now), Settled(t.records, t.owners[id], sent, t.now);
            && (key in b ==> key in a && b[key] == a[key])
            && (key in a && key !in b ==> a[key].created < s.now - s.retention)
  {
    assert OwnerUnder(s, id, key) == OwnerUnder(t, id, key);
  }

  lemma StepAlikeUnder(s: State, t: State, step: Step, key: Key)
    requires AlikeUnder(s, t, key) && Enabled(s, step) && Enabled(t, step)
    requires !(SettlesOverOld(s, step) && s.owners[step.id].key == key)
    ensures AlikeUnder(Next(s, step), Next(t, step), key)
  {
    forall id ensures OwnerUnder(Next(s, step), id, key) == OwnerUnder(Next(t, step), id, key) {
      OwnersAlikeUnder(s, t, step, key, id);
    }
    match step
    case Elapse(_) =>
    case Request(_, _, hash, _) => AnswerAlikeUnder(s, t, key, hash);
    case Settle(id, sent) => SettledAlikeUnder(s, t, id, sent, key);
    case Die(_) =>
    case Purge =>
  }

  lemma DoneOneMore(effects: seq<Effect>, e: Effect, key: Key)
    ensures DoneUnder(effects + [e], key) == if e.key == key then DoneUnder(effects, key) + [e] else DoneUnder(effects, key)
  {
    FilterOneMore(effects, e, (x: Effect) => x.key == key);
  }

  lemma DoneAlikeUnder(s: State, t: State, step: Step, key: Key)
    requires AlikeUnder(s, t, key) && Enabled(s, step) && Enabled(t, step) && DoneUnder(s.effects, key) == DoneUnder(t.effects, key)
    ensures DoneUnder(Next(s, step).effects, key) == DoneUnder(Next(t, step).effects, key)
  {
    if step.Request? {
      AnswerAlikeUnder(s, t, key, step.hash);
      DoneOneMore(s.effects, Effect(step.key, step.hash, s.now), key);
      DoneOneMore(t.effects, Effect(step.key, step.hash, t.now), key);
    }
  }

  lemma {:induction false} RunsAlikeUnder(s: State, t: State, steps: seq<Step>, key: Key)
    requires AlikeUnder(s, t, key) && Runs(s, steps) && Runs(t, steps) && NoneOverOldUnder(s, steps, key)
    requires DoneUnder(s.effects, key) == DoneUnder(t.effects, key)
    ensures AlikeUnder(After(s, steps), After(t, steps), key)
    ensures DoneUnder(After(s, steps).effects, key) == DoneUnder(After(t, steps).effects, key)
    decreases |steps|
  {
    if steps != [] {
      StepAlikeUnder(s, t, steps[0], key);
      DoneAlikeUnder(s, t, steps[0], key);
      RunsAlikeUnder(Next(s, steps[0]), Next(t, steps[0]), steps[1..], key);
    }
  }

  /** For one key, no such settling under it is enough, whatever is settled under the others. */
  lemma PurgeChangesNothingUnderKey(s: State, steps: seq<Step>, key: Key, hash: int)
    requires Runs(s, steps) && Runs(Next(s, Purge), steps) && NoneOverOldUnder(s, steps, key)
    ensures AnswerTo(After(Next(s, Purge), steps), key, hash) == AnswerTo(After(s, steps), key, hash)
    ensures DoneUnder(After(Next(s, Purge), steps).effects, key) == DoneUnder(After(s, steps).effects, key)
  {
    RunsAlikeUnder(s, Next(s, Purge), steps, key);
  }

  /** Where one does, it can: a refusal settled over an expired record is written into it and lost, but
      makes a record of its own when the expired one was purged first. */
  lemma PurgeCanChangeALaterAnswer(key: Key, hash: int, was: Record)
    requires KeyIsValid(key.text) && was.hash == hash && was.created < -1
    ensures var s := State(0, 1, map[key := was], map[], []);
      var steps := [Request(0, key, hash, false), Settle(0, Some(Response(404, 0)))];
      && Runs(s, steps) && Runs(Next(s, Purge), steps)
      && AnswerTo(After(s, steps), key, hash) == Claimed
      && AnswerTo(After(Next(s, Purge), steps), key, hash) == Replayed(Response(404, 0))
  {
    var s := State(0, 1, map[key := was], map[], []);
    var a, b := Request(0, key, hash, false), Settle(0, Some(Response(404, 0)));
    TwoSteps(s, a, b);
    TwoSteps(Next(s, Purge), a, b);
  }

  lemma TwoSteps(s: State, a: Step, b: Step)
    requires Enabled(s, a) && Enabled(Next(s, a), b)
    ensures Runs(s, [a, b]) && After(s, [a, b]) == Next(Next(s, a), b)
  {
    assert [a, b][1..] == [b];
    OneStep(Next(s, a), b, Key(0, []));
  }

  // ---------------------------------------------------------------- the table

  /** The mutable part of a request: what Claim fills in and the middleware reads after. */
  class Pending {
    const key: string
    const hash: int
    var caller: Option<int>
    var owner: bool

    constructor (key: string, hash: int)
      ensures this.key == key && this.hash == hash && caller == None && !owner
    {
      this.key, this.hash, caller, owner := key, hash, None, false;
    }
  }

  class RecordTable {
    var now: int
    var retention: int
    var records: map<Key, Record>
    ghost var owners: map<int, Owner>
    ghost var effects: seq<Effect>

    ghost function View(): State
      reads this
    {
      State(now, retention, records, owners, effects)
    }

    /** claim: answers at most once in a request. An expired record is deleted and the key claimed
        afresh, all inside the request's transaction. */
    method Claim(pending: Pending, caller: int) returns (answer: Answer)
      modifies this`records, pending
      ensures old(pending.caller).Some? ==> pending.caller == old(pending.caller) && pending.owner == old(pending.owner) && records == old(records)
      ensures old(pending.caller).None? ==>
        var key := Key(caller, pending.key);
        && answer == AnswerTo(old(View()), key, pending.hash)
        && pending.caller == (if answer.Malformed? then None else Some(caller))
        && pending.owner == (old(pending.owner) || answer.Claimed?)
        && records == if answer.Claimed? then old(records)[key := Record(pending.hash, now, None)] else old(records)
    {
      answer := Claimed;
      if pending.caller.Some? {
        return;
      }
      if !KeyIsValid(pending.key) {
        return Malformed;
      }
      pending.caller := Some(caller);
      var key := Key(caller, pending.key);
      if key in records && Expired(records[key], now, retention) {
        records := records - {key};
      }
      if key in records {
        answer := Answered(records[key], pending.hash);
        return;
      }
      records := records[key := Record(pending.hash, now, None)];
      pending.owner := true;
    }

    /** _settle: what went out is kept under the key, or the claim is let go. */
    method Settle(ghost id: int, owner: Owner, sent: Option<Response>)
      requires id in owners && owners[id] == owner
      modifies this`records, this`owners
      ensures View() == Next(old(View()), Step.Settle(id, sent))
      ensures owner.key in old(records) && old(records)[owner.key].hash == owner.hash && old(records)[owner.key].response.None? ==>
        if sent.Some? && (200 <= sent.value.status <= 299 || (400 <= sent.value.status <= 499 && sent.value.status !in {401, 403, 429}))
        then owner.key in records && records[owner.key] == old(records)[owner.key].(response := sent)
        else owner.key !in records
    {
      owners := owners - {id};
      if owner.key in records && records[owner.key].hash != owner.hash {
        return;
      }
      if Kept(sent) {
        if owner.key !in records {
          records := records[owner.key := Record(owner.hash, now, None)];
        }
        records := records[owner.key := records[owner.key].(response := sent)];
      } else if owner.key in records && records[owner.key].response.None? {
        records := records - {owner.key};
      }
    }

    method PurgeExpired() returns (purged: int)
      modifies this`records
      ensures View() == Next(old(View()), Purge)
      ensures purged == |old(records)| - |records|
    {
      var limit := now - retention;
      var gone := set key | key in records && records[key].created < limit;
      PurgedCount(records, gone, limit);
      records := records - gone;
      purged := |gone|;
    }
  }

  lemma PurgedCount(records: map<Key, Record>, gone: set<Key>, limit: int)
    requires forall key :: key in gone <==> key in records && records[key].created < limit
    ensures records - gone == Purged(records, limit)
    ensures |records - gone| == |records| - |gone|
  {
    var kept := records - gone;
    assert gone <= records.Keys && kept.Keys == records.Keys - gone;
    assert |kept| == |kept.Keys| && |records| == |records.Keys|;
  }
}
