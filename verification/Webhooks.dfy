/** The webhook tables as the code changes them (backend/app/services/webhooks.py: fan_out,
    claim_due, record, redeliver). Each method is one step of FanOut.dfy or Lease.dfy. */
module Webhooks {
  import opened Sequences
  import L = Lease
  import F = FanOut

  // ---------------------------------------------------------------- claiming and recording

  /** A delivery due, with the key it is taken in order of: (next_attempt_at, id). */
  datatype Due = Due(next: int, id: int)

  predicate DueLe(a: Due, b: Due) {
    if a.next != b.next then a.next < b.next else a.id <= b.id
  }

  function DueRows(s: L.State, n: nat): seq<Due>
    requires n <= |s.deliveries|
  {
    if n == 0 then []
    else
      var front := DueRows(s, n - 1);
      if L.Claimable(s, n - 1) then front + [Due(s.deliveries[n - 1].next.value, n - 1)] else front
  }

  /** The earliest SEND_BATCH of the deliveries that are due and not held up. */
  function Chosen(s: L.State): seq<Due> {
    FirstFifty(SortBy(DueRows(s, |s.deliveries|), DueLe))
  }

  function IdsOf(dues: seq<Due>): seq<int> {
    seq(|dues|, i requires 0 <= i < |dues| => dues[i].id)
  }

  lemma {:induction false} InDueRows(s: L.State, n: nat)
    requires n <= |s.deliveries|
    ensures forall x :: x in DueRows(s, n) <==> 0 <= x.id < n && L.Claimable(s, x.id) && x.next == s.deliveries[x.id].next.value
    ensures Distinct(DueRows(s, n))
  {
    if n > 0 {
      InDueRows(s, n - 1);
    }
  }

  /** The batch is one the protocol allows: every row in it claimable, none twice, no more than fifty. */
  lemma ChosenIsClaimable(s: L.State)
    ensures |Chosen(s)| <= L.SEND_BATCH
    ensures forall i :: 0 <= i < |Chosen(s)| ==> L.Claimable(s, IdsOf(Chosen(s))[i])
    ensures forall i, j :: 0 <= i < j < |Chosen(s)| ==> IdsOf(Chosen(s))[i] != IdsOf(Chosen(s))[j]
  {
    var rows := DueRows(s, |s.deliveries|);
    InDueRows(s, |s.deliveries|);
    SortByKeeps(rows, DueLe);
    var sorted := SortBy(rows, DueLe);
    PermutationDistinct(sorted, rows);
    forall i | 0 <= i < |sorted| ensures L.Claimable(s, sorted[i].id) && sorted[i].next == s.deliveries[sorted[i].id].next.value {
      assert sorted[i] in sorted;
    }
  }

  function FirstFifty(sorted: seq<Due>): seq<Due> {
    if |sorted| <= L.SEND_BATCH then sorted else sorted[..L.SEND_BATCH]
  }

  lemma CutLeavesLater(sorted: seq<Due>, due: Due)
    requires forall i, j :: 0 <= i < j < |sorted| ==> DueLe(sorted[i], sorted[j])
    requires due in sorted && due !in FirstFifty(sorted)
    ensures |FirstFifty(sorted)| == L.SEND_BATCH
    ensures forall x :: x in FirstFifty(sorted) ==> DueLe(x, due)
  {
    var k :| 0 <= k < |sorted| && sorted[k] == due;
    var cut := FirstFifty(sorted);
    assert forall i :: 0 <= i < |cut| ==> cut[i] in cut && cut[i] == sorted[i];
  }

  /** A due delivery is left for a later pass only when fifty that come no later were taken. */
  lemma NothingDueIsOvertaken(s: L.State, d: int)
    requires L.Claimable(s, d) && d !in IdsOf(Chosen(s))
    ensures |Chosen(s)| == 50
    ensures forall x :: x in Chosen(s) ==> x.next < s.deliveries[d].next.value || (x.next == s.deliveries[d].next.value && x.id < d)
  {
    InDueRows(s, |s.deliveries|);
    SortByKeeps(DueRows(s, |s.deliveries|), DueLe);
    var ids := IdsOf(Chosen(s));
    assert forall i :: 0 <= i < |ids| ==> ids[i] in ids && ids[i] == Chosen(s)[i].id;
    var due := Due(s.deliveries[d].next.value, d);
    CutLeavesLater(SortBy(DueRows(s, |s.deliveries|), DueLe), due);
    forall x | x in Chosen(s) ensures x.next < due.next || (x.next == due.next && x.id < d) {
      ComesBefore(x, due);
    }
  }

  lemma ComesBefore(x: Due, due: Due)
    requires DueLe(x, due) && x != due
    ensures x.next < due.next || (x.next == due.next && x.id < due.id)
  {
  }

  class DeliveryTable {
    var now: int
    var deliveries: seq<L.Delivery>
    var claims: seq<L.Claim>
    var log: seq<L.AttemptRow>
    var subs: map<int, L.Sub>

    function View(): L.State
      reads this
    {
      L.State(now, deliveries, claims, log, subs)
    }

    constructor (now: int, subs: map<int, L.Sub>)
      ensures View() == L.Start(now, subs)
    {
      this.now, deliveries, claims, log, this.subs := now, [], [], [], subs;
    }

    /** The deliveries to claim now, earliest first. */
    method Batch() returns (chosen: seq<int>)
      ensures chosen == IdsOf(Chosen(View()))
    {
      var due: seq<Due> := [];
      for n := 0 to |deliveries|
        invariant due == DueRows(View(), n)
      {
        if L.Claimable(View(), n) {
          due := due + [Due(deliveries[n].next.value, n)];
        }
      }
      chosen := IdsOf(FirstFifty(SortBy(due, DueLe)));
    }

    method Take(d: int, started: int)
      requires 0 <= d < |deliveries|
      modifies this`deliveries, this`claims
      ensures View() == L.ClaimOne(old(View()), d, started)
    {
      var lease := now + L.CLAIM_LEASE;
      claims := claims + [L.Claim(d, lease, started, deliveries[d].generation, deliveries[d].attempts, L.Waiting)];
      deliveries := deliveries[d := deliveries[d].(next := Some(lease))];
    }

    method TakeAll(chosen: seq<int>, started: int)
      requires forall i :: 0 <= i < |chosen| ==> 0 <= chosen[i] < |deliveries|
      modifies this`deliveries, this`claims
      ensures View() == L.ClaimAll(old(View()), chosen, started)
    {
      for n := 0 to |chosen|
        invariant View() == L.ClaimAll(old(View()), chosen[..n], started)
      {
        assert chosen[..n + 1][..n] == chosen[..n];
        Take(chosen[n], started);
      }
      assert chosen[..|chosen|] == chosen;
    }

    /** claim_due: takes Chosen of the state, and is an enabled step of Lease.dfy. */
    method ClaimDue(started: int) returns (chosen: seq<int>)
      requires started <= now
      modifies this`deliveries, this`claims
      ensures chosen == IdsOf(Chosen(old(View())))
      ensures L.Enabled(old(View()), L.Step.ClaimDue(chosen, started))
      ensures View() == L.ClaimAll(old(View()), chosen, started)
    {
      chosen := Batch();
      ChosenIsClaimable(View());
      TakeAll(chosen, started);
    }

    /** record: read the row, decide, and write only where the row still carries this claim's lease and
        count. Nothing comes between the read and the update here; Lease.dfy lets anything come there. */
    method Record(c: int, backoff: L.Backoff) returns (recorded: bool)
      requires L.HasClaim(View(), c) && claims[c].phase.Answered?
      modifies this
      ensures var read := L.Next(old(View()), L.ReadRow(c), backoff);
              View() == if read.claims[c].phase.Over? then read else L.Next(read, L.WriteRow(c), backoff)
      ensures recorded <==> deliveries[claims[c].delivery] != old(deliveries)[claims[c].delivery]
      ensures recorded <==> |log| == |old(log)| + 1
    {
      var ok := claims[c].phase.ok;
      var d := claims[c].delivery;
      var row := deliveries[d];
      if row.sub !in subs {
        claims := claims[c := claims[c].(phase := L.Over)];
        return false;
      }
      var attempts := row.attempts + 1;
      var changed := if ok then row.(status := L.Succeeded, next := None, attempts := attempts)
                     else if attempts >= L.MAX_ATTEMPTS then row.(status := L.Failed, next := None, attempts := attempts)
                     else row.(next := Some(now + backoff(row.event, attempts)), attempts := attempts);
      recorded := row.status.Pending? && row.next == Some(claims[c].lease);
      if recorded {
        deliveries := deliveries[d := changed];
        log := log + [L.AttemptRow(c, d, row.generation, now, ok)];
        var sub := subs[row.sub];
        if ok {
          subs := subs[row.sub := sub.(failures := 0)];
        } else if attempts >= L.MAX_ATTEMPTS {
          subs := subs[row.sub := sub.(failures := sub.failures + 1, paused := sub.paused || sub.failures + 1 >= L.PAUSE_AFTER)];
        }
      }
      claims := claims[c := claims[c].(phase := L.Over)];
    }

    method Redeliver(d: int)
      requires 0 <= d < |deliveries|
      modifies this`deliveries
      ensures View() == L.Redelivered(old(View()), d)
    {
      deliveries := deliveries[d := deliveries[d].(status := L.Pending, attempts := 0, next := Some(now), generation := deliveries[d].generation + 1)];
    }
  }

  // ---------------------------------------------------------------- fanning out

  /** A pass over the subscriptions in id order. */
  function PassAll(f: F.Feed, sids: seq<int>): (after: F.Feed)
    requires forall i :: 0 <= i < |sids| ==> sids[i] in f.subs
    ensures after.subs.Keys == f.subs.Keys
  {
    if sids == [] then f else F.PassOne(PassAll(f, sids[..|sids| - 1]), sids[|sids| - 1])
  }

  /** The whole transaction keeps what each subscription's share keeps. */
  lemma {:induction false} PassAllKeeps(f: F.Feed, sids: seq<int>, m: F.Marker)
    requires F.Inv(f, m) && (f.waits || m !in f.open) && forall i :: 0 <= i < |sids| ==> sids[i] in f.subs
    ensures F.Inv(PassAll(f, sids), m) && PassAll(f, sids).waits == f.waits && PassAll(f, sids).open == f.open
  {
    if sids != [] {
      PassAllKeeps(f, sids[..|sids| - 1], m);
      F.PassKeeps(PassAll(f, sids[..|sids| - 1]), sids[|sids| - 1], m);
    }
  }

  lemma {:induction false} TrustedSplit(a: seq<F.Marker>, b: seq<F.Marker>, now: int, waits: bool)
    requires forall i :: 0 <= i < |a| ==> !F.TooYoung(a[i], now, waits)
    ensures F.Trusted(a + b, now, waits) == a + F.Trusted(b, now, waits)
  {
    if a == [] {
      assert a + b == b;
    } else {
      assert (a + b)[1..] == a[1..] + b;
      TrustedSplit(a[1..], b, now, waits);
    }
  }

  class ChangeFeed {
    var now: int
    var waits: bool
    var committed: seq<F.Marker>
    var subs: map<int, F.Subscription>
    var made: seq<F.Made>
    ghost var nextId: int
    ghost var open: set<F.Marker>

    ghost function View(): F.Feed
      reads this
    {
      F.Feed(now, nextId, committed, open, subs, made, waits)
    }

    /** The markers to fan out for one subscription: in id order, at most a batch, stopping at the first
        too young to trust. */
    method Settled(sub: F.Subscription) returns (markers: seq<F.Marker>)
      ensures markers == F.Taken(View(), sub)
    {
      var batch := F.FirstOnes(F.Unseen(committed, sub));
      markers := [];
      for n := 0 to |batch|
        invariant markers == batch[..n]
        invariant forall i :: 0 <= i < n ==> !F.TooYoung(batch[i], now, waits)
      {
        if F.TooYoung(batch[n], now, waits) {
          TrustedSplit(batch[..n], batch[n..], now, waits);
          assert batch == batch[..n] + batch[n..];
          return;
        }
        markers := markers + [batch[n]];
      }
      TrustedSplit(batch, [], now, waits);
      assert batch + [] == batch;
    }

    /** The deliveries of one subscription's markers. */
    method MakeFor(sid: int, sub: F.Subscription, markers: seq<F.Marker>) returns (count: int)
      modifies this`made
      ensures made == old(made) + F.MadeFor(sid, sub, markers)
      ensures count == |made| - |old(made)|
    {
      count := 0;
      for k := 0 to |markers|
        invariant made == old(made) + F.MadeFor(sid, sub, markers[..k])
        invariant count == |made| - |old(made)|
      {
        assert markers[..k + 1][..k] == markers[..k];
        if markers[k].event in sub.wanted {
          made := made + [F.Made(sid, markers[k].id, markers[k].entity)];
          count := count + 1;
        }
      }
      assert markers[..|markers|] == markers;
    }

    method PassOver(sid: int) returns (count: int)
      requires sid in subs
      modifies this`subs, this`made
      ensures View() == F.PassOne(old(View()), sid)
      ensures count == |made| - |old(made)|
    {
      count := 0;
      var sub := subs[sid];
      if sub.live {
        var markers := Settled(sub);
        if markers != [] {
          count := MakeFor(sid, sub, markers);
          subs := subs[sid := sub.(cursor := markers[|markers| - 1].id)];
        }
      }
    }

    /** fan_out: deliveries and cursors of every live subscription in one transaction. */
    method FanOut(sids: seq<int>) returns (count: int)
      requires forall i :: 0 <= i < |sids| ==> sids[i] in subs
      modifies this`subs, this`made
      ensures View() == PassAll(old(View()), sids)
      ensures count == |made| - |old(made)|
    {
      count := 0;
      for n := 0 to |sids|
        invariant View() == PassAll(old(View()), sids[..n])
        invariant count == |made| - |old(made)|
      {
        assert sids[..n + 1][..n] == sids[..n];
        assert View().subs.Keys == old(View()).subs.Keys;
        var more := PassOver(sids[n]);
        count := count + more;
      }
      assert sids[..|sids|] == sids;
    }
  }
}
