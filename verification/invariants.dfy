/** Store invariants: the table constraints, the one-to-one correspondence between finished
    sessions and billing records, and admission within capacity. Each transition of the
    service layer is shown to preserve them, or shown not to. */
module Invariants {
  import opened Wrappers
  import opened Errors
  import opened Models
  import opened Schemas
  import Seqs
  import ResourceService
  import UsageSessionService
  import BillingService

  function OfSession(sessionId: int): BillingRecord -> bool
  {
    (b: BillingRecord) => b.usageSessionId == sessionId
  }

  /** `b` is the settlement of `s`: same session, resource and user, the session's duration
      and cost, and a total that is duration times the recorded rate. */
  predicate Settles(b: BillingRecord, s: UsageSession)
  {
    && b.usageSessionId == s.id
    && b.resourceId == s.resourceId
    && b.userId == s.userId
    && !s.isActive
    && s.durationMinutes == Some(b.durationMinutes)
    && s.cost == Some(b.totalCost)
    && b.totalCost == b.durationMinutes * b.pricePerMinute
  }

  /** A running session has no billing record and a finished one exactly one. */
  predicate BillsCounted(ss: seq<UsageSession>, bs: seq<BillingRecord>)
  {
    forall i :: 0 <= i < |ss| ==> Seqs.Count(bs, OfSession(ss[i].id)) == (if ss[i].isActive then 0 else 1)
  }

  /** `b` settles one of the sessions in `ss`. */
  predicate SettledBy(b: BillingRecord, ss: seq<UsageSession>)
  {
    exists i :: 0 <= i < |ss| && Settles(b, ss[i])
  }

  /** Every billing record settles some session. */
  predicate BillsSettle(ss: seq<UsageSession>, bs: seq<BillingRecord>)
  {
    forall k :: 0 <= k < |bs| ==> SettledBy(bs[k], ss)
  }

  predicate Wf(st: Store)
  {
    && ResourceTableOk(st.resources, st.nextResourceId)
    && SessionTableOk(st.sessions, st.nextSessionId, st.nextResourceId)
    && BillingTableOk(st.billing, st.nextBillingId)
    && BillsCounted(st.sessions, st.billing)
    && BillsSettle(st.sessions, st.billing)
  }

  /** No resource has more active sessions than its capacity. */
  predicate WithinCapacity(st: Store)
  {
    forall k :: 0 <= k < |st.resources| ==>
      UsageSessionService.GetActiveCount(st, st.resources[k].id) <= st.resources[k].capacity
  }

  lemma EmptyIsWf()
    ensures Wf(Empty) && WithinCapacity(Empty)
  {
  }

  /** With distinct ids, the lookup returns the resource at the position holding the id. */
  lemma LookupIsUnique(st: Store, k: nat)
    requires ResourceTableOk(st.resources, st.nextResourceId) && k < |st.resources|
    ensures ResourceService.GetResourceById(st, st.resources[k].id) == Ok(st.resources[k])
  {
    var r := ResourceService.FindResource(st, st.resources[k].id);
    assert r.Ok?;
  }

  /** A resource id no session refers to has no active sessions. */
  lemma UnusedIdIsIdle(st: Store, resourceId: int)
    requires SessionTableOk(st.sessions, st.nextSessionId, st.nextResourceId) && resourceId >= st.nextResourceId
    ensures UsageSessionService.GetActiveCount(st, resourceId) == 0
  {
  }

  /** A session reports no end time, duration or cost exactly while it is active, and all
      three once it is not. */
  lemma SessionShape(st: Store, i: nat)
    requires Wf(st) && i < |st.sessions|
    ensures st.sessions[i].isActive <==> st.sessions[i].endTime.None?
    ensures st.sessions[i].isActive <==> st.sessions[i].durationMinutes.None?
    ensures st.sessions[i].isActive <==> st.sessions[i].cost.None?
  {
  }

  // ---------------------------------------------------------------- resource registry

  lemma CreatePreservesWf(st: Store, req: ResourceCreate)
    requires Wf(st) && ResourceService.CreateResource(st, req).Ok?
    ensures Wf(ResourceService.CreateResource(st, req).value.store)
  {
    var reply := ResourceService.CreateResource(st, req).value;
    var st', res := reply.store, reply.body;
    assert st'.resources == st.resources + [res];
    forall i | 0 <= i < |st'.resources|
      ensures 1 <= st'.resources[i].id < st'.nextResourceId
    {
      if i < |st.resources| {
        assert st'.resources[i] == st.resources[i];
      }
    }
    forall a, b | 0 <= a < b < |st'.resources|
      ensures st'.resources[a].id != st'.resources[b].id
      ensures st'.resources[a].name != st'.resources[b].name
    {
      assert st'.resources[a] == st.resources[a];
      if b < |st.resources| {
        assert st'.resources[b] == st.resources[b];
      }
    }
  }

  /** A valid creation keeps every resource within capacity: the new one starts idle. */
  lemma CreatePreservesCapacity(st: Store, req: ResourceCreate)
    requires Wf(st) && WithinCapacity(st) && ValidResourceCreate(req)
    requires ResourceService.CreateResource(st, req).Ok?
    ensures WithinCapacity(ResourceService.CreateResource(st, req).value.store)
  {
    var st' := ResourceService.CreateResource(st, req).value.store;
    assert st'.sessions == st.sessions;
    forall k | 0 <= k < |st'.resources|
      ensures UsageSessionService.GetActiveCount(st', st'.resources[k].id) <= st'.resources[k].capacity
    {
      if k == |st.resources| {
        UnusedIdIsIdle(st, st'.resources[k].id);
      } else {
        assert st'.resources[k] == st.resources[k];
      }
    }
  }

  lemma UpdatePreservesWf(st: Store, id: int, upd: ResourceUpdate)
    requires Wf(st) && ResourceService.UpdateResource(st, id, upd).Ok?
    ensures Wf(ResourceService.UpdateResource(st, id, upd).value.store)
  {
    var st' := ResourceService.UpdateResource(st, id, upd).value.store;
    var i := ResourceService.FindResource(st, id).value;
    assert st'.resources[i] == ResourceService.UpdateResource(st, id, upd).value.body;
    assert st'.sessions == st.sessions && st'.billing == st.billing;
    assert st'.nextResourceId == st.nextResourceId;
    forall a, b | 0 <= a < b < |st'.resources|
      ensures st'.resources[a].name != st'.resources[b].name
    {
      if a == i {
        assert st.resources[b].name != st'.resources[i].name;
      } else if b == i {
        assert st.resources[a].name != st'.resources[i].name;
      }
    }
  }

  /** An update keeps every resource within capacity exactly when the updated resource's
      new capacity still covers its active sessions; the update itself never checks this. */
  lemma UpdateCapacityCondition(st: Store, id: int, upd: ResourceUpdate)
    requires Wf(st) && WithinCapacity(st) && ResourceService.UpdateResource(st, id, upd).Ok?
    ensures
      var reply := ResourceService.UpdateResource(st, id, upd).value;
      WithinCapacity(reply.store) <==> UsageSessionService.GetActiveCount(st, id) <= reply.body.capacity
  {
    var reply := ResourceService.UpdateResource(st, id, upd).value;
    var st' := reply.store;
    var i := ResourceService.FindResource(st, id).value;
    assert st'.sessions == st.sessions;
    assert st'.resources[i] == reply.body;
    if UsageSessionService.GetActiveCount(st, id) <= reply.body.capacity {
      forall k | 0 <= k < |st'.resources|
        ensures UsageSessionService.GetActiveCount(st', st'.resources[k].id) <= st'.resources[k].capacity
      {
        if k != i {
          assert st'.resources[k] == st.resources[k];
        }
      }
    }
  }

  /** Lowering a resource's capacity below its active count is accepted, and leaves the
      store over capacity. */
  lemma UpdateCanOverfill(st: Store, k: nat, capacity: int)
    requires Wf(st) && WithinCapacity(st) && k < |st.resources|
    requires capacity < UsageSessionService.GetActiveCount(st, st.resources[k].id)
    ensures
      var r := ResourceService.UpdateResource(st, st.resources[k].id, ResourceUpdate(Unset, Unset, Given(capacity), Unset));
      r.Ok? && !WithinCapacity(r.value.store)
  {
    var id := st.resources[k].id;
    var upd := ResourceUpdate(Unset, Unset, Given(capacity), Unset);
    var i := ResourceService.FindResource(st, id).value;
    assert i == k;
    assert !ResourceService.NameTakenElsewhere(st.resources, i, st.resources[i].name);
    UpdateCapacityCondition(st, id, upd);
  }

  lemma DeletePreservesWf(st: Store, id: int)
    requires Wf(st) && ResourceService.DeleteResource(st, id).Ok?
    ensures Wf(ResourceService.DeleteResource(st, id).value)
  {
    var st' := ResourceService.DeleteResource(st, id).value;
    var i := ResourceService.FindResource(st, id).value;
    assert st'.sessions == st.sessions && st'.billing == st.billing;
    forall a, b | 0 <= a < b < |st'.resources|
      ensures st'.resources[a].id != st'.resources[b].id
      ensures st'.resources[a].name != st'.resources[b].name
    {
      var a0 := if a < i then a else a + 1;
      var b0 := if b < i then b else b + 1;
      assert st'.resources[a] == st.resources[a0] && st'.resources[b] == st.resources[b0];
    }
  }

  lemma DeletePreservesCapacity(st: Store, id: int)
    requires Wf(st) && WithinCapacity(st) && ResourceService.DeleteResource(st, id).Ok?
    ensures WithinCapacity(ResourceService.DeleteResource(st, id).value)
  {
    var st' := ResourceService.DeleteResource(st, id).value;
    var i := ResourceService.FindResource(st, id).value;
    assert st'.sessions == st.sessions;
    forall k | 0 <= k < |st'.resources|
      ensures UsageSessionService.GetActiveCount(st', st'.resources[k].id) <= st'.resources[k].capacity
    {
      var k0 := if k < i then k else k + 1;
      assert st'.resources[k] == st.resources[k0];
    }
  }

  /** Deleting a resource leaves its running sessions unstoppable: every stop fails with
      not-found and commits nothing. */
  lemma DeleteStrandsSessions(st: Store, id: int, j: nat, now: nat)
    requires Wf(st) && ResourceService.DeleteResource(st, id).Ok?
    requires j < |st.sessions| && st.sessions[j].resourceId == id && st.sessions[j].isActive
    ensures UsageSessionService.StopSession(ResourceService.DeleteResource(st, id).value, st.sessions[j].id, now)
         == Err(ResourceNotFound)
  {
    var st' := ResourceService.DeleteResource(st, id).value;
    assert st'.sessions == st.sessions;
    DeleteRemovesId(st, id);
    StopWithoutResource(st', j, now);
  }

  /** With distinct session ids, stopping an active session whose resource is gone fails with
      not-found. */
  lemma StopWithoutResource(st: Store, j: nat, now: nat)
    requires forall a, b :: 0 <= a < b < |st.sessions| ==> st.sessions[a].id != st.sessions[b].id
    requires j < |st.sessions| && st.sessions[j].isActive
    requires forall k :: 0 <= k < |st.resources| ==> st.resources[k].id != st.sessions[j].resourceId
    ensures UsageSessionService.StopSession(st, st.sessions[j].id, now) == Err(ResourceNotFound)
  {
    var sessionId := st.sessions[j].id;
    assert UsageSessionService.ActiveWithId(sessionId)(st.sessions[j]);
    var found := Seqs.IndexOf(st.sessions, UsageSessionService.ActiveWithId(sessionId));
    assert found.Some?;
    assert st.sessions[found.value].id == sessionId;
    assert found.value == j;
    assert ResourceService.GetResourceById(st, st.sessions[j].resourceId).Err?;
  }

  /** With distinct ids, no resource left after a deletion carries the deleted id. */
  lemma DeleteRemovesId(st: Store, id: int)
    requires Wf(st) && ResourceService.DeleteResource(st, id).Ok?
    ensures forall k :: 0 <= k < |ResourceService.DeleteResource(st, id).value.resources| ==>
      ResourceService.DeleteResource(st, id).value.resources[k].id != id
  {
    var rs' := ResourceService.DeleteResource(st, id).value.resources;
    var i := ResourceService.FindResource(st, id).value;
    forall k | 0 <= k < |rs'|
      ensures rs'[k].id != id
    {
      var k0 := if k < i then k else k + 1;
      assert rs'[k] == st.resources[k0];
    }
  }

  // ---------------------------------------------------------------- session admission

  /** Adding a running session with a fresh id keeps the billing correspondence. */
  lemma AddRunningSession(ss: seq<UsageSession>, bs: seq<BillingRecord>, s: UsageSession)
    requires BillsCounted(ss, bs) && BillsSettle(ss, bs) && Running(s)
    requires forall i :: 0 <= i < |ss| ==> ss[i].id != s.id
    ensures BillsCounted(ss + [s], bs) && BillsSettle(ss + [s], bs)
  {
    AddKeepsCounts(ss, bs, s);
    AddKeepsRecords(ss, bs, s);
  }

  /** A fresh running session has no record, and every other session keeps its count. */
  lemma AddKeepsCounts(ss: seq<UsageSession>, bs: seq<BillingRecord>, s: UsageSession)
    requires BillsCounted(ss, bs) && BillsSettle(ss, bs) && Running(s)
    requires forall i :: 0 <= i < |ss| ==> ss[i].id != s.id
    ensures BillsCounted(ss + [s], bs)
  {
    var ss' := ss + [s];
    forall i | 0 <= i < |ss'|
      ensures Seqs.Count(bs, OfSession(ss'[i].id)) == (if ss'[i].isActive then 0 else 1)
    {
      if i == |ss| {
        forall k | 0 <= k < |bs|
          ensures !OfSession(s.id)(bs[k])
        {
          assert SettledBy(bs[k], ss);
          var m :| 0 <= m < |ss| && Settles(bs[k], ss[m]);
        }
      } else {
        assert ss'[i] == ss[i];
      }
    }
  }

  /** Adding a session never stops a record from settling the session it settled. */
  lemma AddKeepsRecords(ss: seq<UsageSession>, bs: seq<BillingRecord>, s: UsageSession)
    requires BillsSettle(ss, bs)
    ensures BillsSettle(ss + [s], bs)
  {
    forall k | 0 <= k < |bs|
      ensures SettledBy(bs[k], ss + [s])
    {
      assert SettledBy(bs[k], ss);
      var m :| 0 <= m < |ss| && Settles(bs[k], ss[m]);
      assert (ss + [s])[m] == ss[m];
    }
  }

  /** Appending a running session under the next id, on an existing resource id, keeps the
      session table's constraints. */
  lemma AppendKeepsSessionTable(ss: seq<UsageSession>, s: UsageSession, nextSessionId: int, nextResourceId: int)
    requires SessionTableOk(ss, nextSessionId, nextResourceId)
    requires s.id == nextSessionId && 1 <= s.resourceId < nextResourceId && Running(s)
    ensures SessionTableOk(ss + [s], nextSessionId + 1, nextResourceId)
  {
    var ss' := ss + [s];
    assert ss'[|ss|] == s;
    forall i | 0 <= i < |ss'|
      ensures 1 <= ss'[i].id < nextSessionId + 1
      ensures 1 <= ss'[i].resourceId < nextResourceId
      ensures Running(ss'[i]) || Finished(ss'[i])
    {
      if i < |ss| {
        assert ss'[i] == ss[i];
      }
    }
    forall a, b | 0 <= a < b < |ss'|
      ensures ss'[a].id != ss'[b].id
    {
      assert ss'[a] == ss[a];
      if b < |ss| {
        assert ss'[b] == ss[b];
      }
    }
  }

  lemma StartPreservesWf(st: Store, req: UsageSessionStart, now: nat)
    requires Wf(st) && UsageSessionService.StartSession(st, req, now).Ok?
    ensures Wf(UsageSessionService.StartSession(st, req, now).value.store)
  {
    var reply := UsageSessionService.StartSession(st, req, now).value;
    var res := ResourceService.GetResourceById(st, req.resourceId).value;
    assert 1 <= reply.body.resourceId < st.nextResourceId by {
      var k :| 0 <= k < |st.resources| && st.resources[k] == res;
    }
    AppendKeepsSessionTable(st.sessions, reply.body, st.nextSessionId, st.nextResourceId);
    AddRunningSession(st.sessions, st.billing, reply.body);
  }

  /** A successful start raises the active count of its resource by one and leaves every
      other resource's count unchanged. */
  lemma StartRaisesCount(st: Store, req: UsageSessionStart, now: nat, resourceId: int)
    requires UsageSessionService.StartSession(st, req, now).Ok?
    ensures UsageSessionService.GetActiveCount(UsageSessionService.StartSession(st, req, now).value.store, resourceId)
         == UsageSessionService.GetActiveCount(st, resourceId) + (if resourceId == req.resourceId then 1 else 0)
  {
    var reply := UsageSessionService.StartSession(st, req, now).value;
    Seqs.CountAppend(st.sessions, reply.body, UsageSessionService.ActiveOn(resourceId));
  }

  /** Admission never takes a resource past its capacity. */
  lemma StartPreservesCapacity(st: Store, req: UsageSessionStart, now: nat)
    requires Wf(st) && WithinCapacity(st) && UsageSessionService.StartSession(st, req, now).Ok?
    ensures WithinCapacity(UsageSessionService.StartSession(st, req, now).value.store)
  {
    var st' := UsageSessionService.StartSession(st, req, now).value.store;
    assert st'.resources == st.resources;
    forall k | 0 <= k < |st.resources|
      ensures UsageSessionService.GetActiveCount(st', st.resources[k].id) <= st.resources[k].capacity
    {
      StartRaisesCount(st, req, now, st.resources[k].id);
      if st.resources[k].id == req.resourceId {
        LookupIsUnique(st, k);
      }
    }
  }

  // ---------------------------------------------------------------- completion and billing

  /** Finishing the running session at position `i` and appending its settlement keeps
      the billing correspondence. */
  lemma SettleSession(ss: seq<UsageSession>, bs: seq<BillingRecord>, i: nat, done: UsageSession, bill: BillingRecord)
    requires BillsCounted(ss, bs) && BillsSettle(ss, bs)
    requires forall a, b :: 0 <= a < b < |ss| ==> ss[a].id != ss[b].id
    requires i < |ss| && ss[i].isActive && done.id == ss[i].id && Settles(bill, done)
    ensures BillsCounted(ss[i := done], bs + [bill]) && BillsSettle(ss[i := done], bs + [bill])
  {
    SettleKeepsCounts(ss, bs, i, done, bill);
    SettleKeepsRecords(ss, bs, i, done, bill);
  }

  /** After the stop, the finished session has exactly one record and every other session
      keeps its count. */
  lemma SettleKeepsCounts(ss: seq<UsageSession>, bs: seq<BillingRecord>, i: nat, done: UsageSession, bill: BillingRecord)
    requires BillsCounted(ss, bs)
    requires forall a, b :: 0 <= a < b < |ss| ==> ss[a].id != ss[b].id
    requires i < |ss| && ss[i].isActive && done.id == ss[i].id && !done.isActive
    requires bill.usageSessionId == done.id
    ensures BillsCounted(ss[i := done], bs + [bill])
  {
    var ss', bs' := ss[i := done], bs + [bill];
    forall j | 0 <= j < |ss'|
      ensures Seqs.Count(bs', OfSession(ss'[j].id)) == (if ss'[j].isActive then 0 else 1)
    {
      Seqs.CountAppend(bs, bill, OfSession(ss'[j].id));
      if j != i {
        assert ss'[j] == ss[j];
      }
    }
  }

  /** After the stop, every record, old or new, still settles some session. */
  lemma SettleKeepsRecords(ss: seq<UsageSession>, bs: seq<BillingRecord>, i: nat, done: UsageSession, bill: BillingRecord)
    requires BillsSettle(ss, bs)
    requires i < |ss| && ss[i].isActive && Settles(bill, done)
    ensures BillsSettle(ss[i := done], bs + [bill])
  {
    var ss', bs' := ss[i := done], bs + [bill];
    assert ss'[i] == done;
    forall k | 0 <= k < |bs'|
      ensures SettledBy(bs'[k], ss')
    {
      if k == |bs| {
        assert bs'[k] == bill;
        assert Settles(bs'[k], ss'[i]);
      } else {
        assert bs'[k] == bs[k];
        assert SettledBy(bs[k], ss);
        var m :| 0 <= m < |ss| && Settles(bs[k], ss[m]);
        assert m != i by {
          assert !ss[m].isActive;
        }
        assert ss'[m] == ss[m];
        assert Settles(bs'[k], ss'[m]);
      }
    }
  }

  /** What a successful stop did: the position of the stopped session and the rate it was
      billed at. */
  lemma StopWitness(st: Store, sessionId: int, now: nat) returns (i: nat, price: real)
    requires UsageSessionService.StopSession(st, sessionId, now).Ok?
    ensures i < |st.sessions| && st.sessions[i].id == sessionId && st.sessions[i].isActive
    ensures exists k :: 0 <= k < |st.resources| && st.resources[k].id == st.sessions[i].resourceId
                        && st.resources[k].pricePerMinute == price
    ensures
      var reply := UsageSessionService.StopSession(st, sessionId, now).value;
      && reply.body == UsageSessionService.Complete(st.sessions[i], now, price)
      && reply.store.sessions == st.sessions[i := reply.body]
      && reply.store.billing == st.billing + [UsageSessionService.Bill(st.nextBillingId, st.sessions[i], now, price)]
      && reply.store.resources == st.resources
      && reply.store.nextSessionId == st.nextSessionId
      && reply.store.nextResourceId == st.nextResourceId
      && reply.store.nextBillingId == st.nextBillingId + 1
  {
    var resource;
    i, resource :|
      && 0 <= i < |st.sessions| && st.sessions[i].id == sessionId && st.sessions[i].isActive
      && ResourceService.GetResourceById(st, st.sessions[i].resourceId) == Ok(resource)
      && UsageSessionService.StopSession(st, sessionId, now).value.body
         == UsageSessionService.Complete(st.sessions[i], now, resource.pricePerMinute)
      && UsageSessionService.StopSession(st, sessionId, now).value.store.sessions
         == st.sessions[i := UsageSessionService.StopSession(st, sessionId, now).value.body]
      && UsageSessionService.StopSession(st, sessionId, now).value.store.billing
         == st.billing + [UsageSessionService.Bill(st.nextBillingId, st.sessions[i], now, resource.pricePerMinute)];
    price := resource.pricePerMinute;
  }

  /** Finishing a running session keeps the session table's constraints. */
  lemma FinishKeepsSessionTable(ss: seq<UsageSession>, i: nat, done: UsageSession, nextSessionId: int, nextResourceId: int)
    requires SessionTableOk(ss, nextSessionId, nextResourceId)
    requires i < |ss| && done.id == ss[i].id && done.resourceId == ss[i].resourceId && Finished(done)
    ensures SessionTableOk(ss[i := done], nextSessionId, nextResourceId)
  {
    var ss' := ss[i := done];
    forall a, b | 0 <= a < b < |ss'|
      ensures ss'[a].id != ss'[b].id
    {
      assert ss'[a].id == ss[a].id && ss'[b].id == ss[b].id;
    }
  }

  /** The record a stop appends settles the session it completes: same session, resource and
      user, the session's duration and cost, and cost equal to duration times the rate. */
  lemma BillSettlesCompletion(id: int, s: UsageSession, now: nat, price: real)
    ensures Settles(UsageSessionService.Bill(id, s, now, price), UsageSessionService.Complete(s, now, price))
    ensures UsageSessionService.Bill(id, s, now, price).pricePerMinute == price
  {
    var minutes := UsageSessionService.DurationMinutes(s.startTime, now);
    var b := UsageSessionService.Bill(id, s, now, price);
    var done := UsageSessionService.Complete(s, now, price);
    assert b.durationMinutes == minutes && b.totalCost == minutes * price;
    assert done.durationMinutes == Some(minutes) && done.cost == Some(minutes * price);
  }

  /** Appending a record under the next id keeps the billing table's constraints. */
  lemma AppendKeepsBillingTable(bs: seq<BillingRecord>, b: BillingRecord, nextBillingId: int)
    requires BillingTableOk(bs, nextBillingId) && b.id == nextBillingId
    ensures BillingTableOk(bs + [b], nextBillingId + 1)
  {
    var bs' := bs + [b];
    forall x, y | 0 <= x < y < |bs'|
      ensures bs'[x].id != bs'[y].id
    {
      assert bs'[x] == bs[x];
    }
  }

  /** Completing the active session at position `i` and billing it under the next id keeps
      every table constraint and the billing correspondence. */
  lemma SettleKeepsWf(st: Store, i: nat, now: nat, price: real, st': Store)
    requires Wf(st) && i < |st.sessions| && st.sessions[i].isActive
    requires st'.sessions == st.sessions[i := UsageSessionService.Complete(st.sessions[i], now, price)]
    requires st'.billing == st.billing + [UsageSessionService.Bill(st.nextBillingId, st.sessions[i], now, price)]
    requires st'.resources == st.resources && st'.nextResourceId == st.nextResourceId
    requires st'.nextSessionId == st.nextSessionId && st'.nextBillingId == st.nextBillingId + 1
    ensures Wf(st')
  {
    var done := UsageSessionService.Complete(st.sessions[i], now, price);
    var bill := UsageSessionService.Bill(st.nextBillingId, st.sessions[i], now, price);
    BillSettlesCompletion(st.nextBillingId, st.sessions[i], now, price);
    FinishKeepsSessionTable(st.sessions, i, done, st.nextSessionId, st.nextResourceId);
    SettleSession(st.sessions, st.billing, i, done, bill);
    AppendKeepsBillingTable(st.billing, bill, st.nextBillingId);
  }

  lemma StopPreservesWf(st: Store, sessionId: int, now: nat)
    requires Wf(st) && UsageSessionService.StopSession(st, sessionId, now).Ok?
    ensures Wf(UsageSessionService.StopSession(st, sessionId, now).value.store)
  {
    var i, price := StopWitness(st, sessionId, now);
    SettleKeepsWf(st, i, now, price, UsageSessionService.StopSession(st, sessionId, now).value.store);
  }

  /** A successful stop lowers the active count of the session's resource by one and
      leaves every other resource's count unchanged. */
  lemma StopLowersCount(st: Store, sessionId: int, now: nat, resourceId: int)
    requires UsageSessionService.StopSession(st, sessionId, now).Ok?
    ensures
      var reply := UsageSessionService.StopSession(st, sessionId, now).value;
      UsageSessionService.GetActiveCount(reply.store, resourceId)
        == UsageSessionService.GetActiveCount(st, resourceId) - (if resourceId == reply.body.resourceId then 1 else 0)
  {
    var reply := UsageSessionService.StopSession(st, sessionId, now).value;
    var i, resource :|
      && 0 <= i < |st.sessions| && st.sessions[i].id == sessionId && st.sessions[i].isActive
      && ResourceService.GetResourceById(st, st.sessions[i].resourceId) == Ok(resource)
      && reply.body == UsageSessionService.Complete(st.sessions[i], now, resource.pricePerMinute)
      && reply.store.sessions == st.sessions[i := reply.body];
    Seqs.CountUpdate(st.sessions, i, reply.body, UsageSessionService.ActiveOn(resourceId));
  }

  lemma StopPreservesCapacity(st: Store, sessionId: int, now: nat)
    requires WithinCapacity(st) && UsageSessionService.StopSession(st, sessionId, now).Ok?
    ensures WithinCapacity(UsageSessionService.StopSession(st, sessionId, now).value.store)
  {
    var st' := UsageSessionService.StopSession(st, sessionId, now).value.store;
    assert st'.resources == st.resources;
    forall k | 0 <= k < |st.resources|
      ensures UsageSessionService.GetActiveCount(st', st.resources[k].id) <= st.resources[k].capacity
    {
      StopLowersCount(st, sessionId, now, st.resources[k].id);
    }
  }

  /** A second stop of the same session fails with not-found, so no second billing record
      can be produced. */
  lemma SecondStopFails(st: Store, sessionId: int, now: nat, later: nat)
    requires Wf(st) && UsageSessionService.StopSession(st, sessionId, now).Ok?
    ensures UsageSessionService.StopSession(UsageSessionService.StopSession(st, sessionId, now).value.store, sessionId, later)
         == Err(ActiveSessionNotFound)
  {
    var reply := UsageSessionService.StopSession(st, sessionId, now).value;
    var i, resource :|
      && 0 <= i < |st.sessions| && st.sessions[i].id == sessionId && st.sessions[i].isActive
      && ResourceService.GetResourceById(st, st.sessions[i].resourceId) == Ok(resource)
      && reply.body == UsageSessionService.Complete(st.sessions[i], now, resource.pricePerMinute)
      && reply.store.sessions == st.sessions[i := reply.body];
    forall j | 0 <= j < |reply.store.sessions|
      ensures !(reply.store.sessions[j].id == sessionId && reply.store.sessions[j].isActive)
    {
      if j != i {
        assert reply.store.sessions[j] == st.sessions[j];
      }
    }
  }

  /** A finished session's billing record settles it. */
  lemma FinishedSessionIsBilled(st: Store, i: nat)
    requires BillsCounted(st.sessions, st.billing) && BillsSettle(st.sessions, st.billing)
    requires forall a, b :: 0 <= a < b < |st.sessions| ==> st.sessions[a].id != st.sessions[b].id
    requires i < |st.sessions| && !st.sessions[i].isActive
    ensures exists k :: 0 <= k < |st.billing| && Settles(st.billing[k], st.sessions[i])
  {
    var p := OfSession(st.sessions[i].id);
    assert Seqs.Count(st.billing, p) == 1;
    var first := Seqs.IndexOf(st.billing, p);
    var k := first.value;
    assert SettledBy(st.billing[k], st.sessions);
    var m :| 0 <= m < |st.sessions| && Settles(st.billing[k], st.sessions[m]);
    assert st.sessions[m].id == st.sessions[i].id;
    assert m == i;
    assert Settles(st.billing[k], st.sessions[i]);
  }

  /** No session has two billing records. */
  lemma AtMostOneBillPerSession(st: Store, a: nat, b: nat)
    requires BillsCounted(st.sessions, st.billing) && BillsSettle(st.sessions, st.billing)
    requires a < b < |st.billing|
    ensures st.billing[a].usageSessionId != st.billing[b].usageSessionId
  {
    if st.billing[a].usageSessionId == st.billing[b].usageSessionId {
      assert SettledBy(st.billing[a], st.sessions);
      var m :| 0 <= m < |st.sessions| && Settles(st.billing[a], st.sessions[m]);
      Seqs.CountTwo(st.billing, OfSession(st.sessions[m].id), a, b);
    }
  }

  /** A successful stop raises the stopping user's total spend by the session's cost and
      leaves every other user's total unchanged. */
  lemma StopChargesOnlyItsUser(st: Store, sessionId: int, now: nat, userId: string)
    requires UsageSessionService.StopSession(st, sessionId, now).Ok?
    ensures
      var reply := UsageSessionService.StopSession(st, sessionId, now).value;
      BillingService.GetUserTotalSpent(reply.store, userId)
        == BillingService.GetUserTotalSpent(st, userId)
           + (if reply.body.userId == userId then reply.body.cost.value else 0.0)
  {
    var reply := UsageSessionService.StopSession(st, sessionId, now).value;
    var i, resource :|
      && 0 <= i < |st.sessions| && st.sessions[i].id == sessionId && st.sessions[i].isActive
      && ResourceService.GetResourceById(st, st.sessions[i].resourceId) == Ok(resource)
      && reply.body == UsageSessionService.Complete(st.sessions[i], now, resource.pricePerMinute)
      && reply.store.billing
         == st.billing + [UsageSessionService.Bill(st.nextBillingId, st.sessions[i], now, resource.pricePerMinute)];
    var bill := UsageSessionService.Bill(st.nextBillingId, st.sessions[i], now, resource.pricePerMinute);
    BillingService.TotalSpentAfterAppend(st, bill, userId);
    assert BillingService.GetUserTotalSpent(reply.store, userId)
        == BillingService.GetUserTotalSpent(st.(billing := st.billing + [bill]), userId);
  }

  // ---------------------------------------------------------------- request validation

  /** Every stored session id passes the stop-request validation, and an id that fails it
      names no active session. */
  lemma StopValidationAdmitsEverySession(st: Store, sessionId: int, now: nat)
    requires Wf(st)
    ensures forall i :: 0 <= i < |st.sessions| ==> ValidUsageSessionStop(UsageSessionStop(st.sessions[i].id))
    ensures !ValidUsageSessionStop(UsageSessionStop(sessionId)) ==>
      UsageSessionService.StopSession(st, sessionId, now) == Err(ActiveSessionNotFound)
  {
  }

  /** A start request with a resource id the validation refuses names no resource. */
  lemma StartValidationAdmitsEveryResource(st: Store, req: UsageSessionStart, now: nat)
    requires Wf(st) && req.resourceId <= 0
    ensures UsageSessionService.StartSession(st, req, now) == Err(ResourceNotFound)
  {
  }

  /** A validly created resource admits a session straight away. */
  lemma NewResourceAdmits(st: Store, req: ResourceCreate, userId: string, now: nat)
    requires Wf(st) && ValidResourceCreate(req) && ResourceService.CreateResource(st, req).Ok?
    ensures
      var reply := ResourceService.CreateResource(st, req).value;
      UsageSessionService.StartSession(reply.store, UsageSessionStart(reply.body.id, userId), now).Ok?
  {
    var reply := ResourceService.CreateResource(st, req).value;
    CreatePreservesWf(st, req);
    LookupIsUnique(reply.store, |st.resources|);
    UnusedIdIsIdle(st, reply.body.id);
    assert reply.store.sessions == st.sessions;
  }
}
