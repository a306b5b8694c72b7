/** Usage sessions: admission against a resource's capacity, completion with billing,
    and the session queries. */
module UsageSessionService {
  import opened Wrappers
  import opened Errors
  import opened Models
  import opened Schemas
  import Seqs
  import ResourceService

  function ActiveOn(resourceId: int): UsageSession -> bool
  {
    (s: UsageSession) => s.resourceId == resourceId && s.isActive
  }

  function ActiveWithId(sessionId: int): UsageSession -> bool
  {
    (s: UsageSession) => s.id == sessionId && s.isActive
  }

  function OnResource(resourceId: int): UsageSession -> bool
  {
    (s: UsageSession) => s.resourceId == resourceId
  }

  function ByUser(userId: string): UsageSession -> bool
  {
    (s: UsageSession) => s.userId == userId
  }

  /** Number of active sessions on a resource. */
  function GetActiveCount(st: Store, resourceId: int): (n: nat)
    ensures n <= |st.sessions|
    ensures n == 0 <==> forall i :: 0 <= i < |st.sessions| ==>
      !(st.sessions[i].resourceId == resourceId && st.sessions[i].isActive)
  {
    Seqs.Count(st.sessions, ActiveOn(resourceId))
  }

  /** Elapsed minutes, fractional, from `start` to `end` (both in seconds). */
  function DurationMinutes(start: nat, end: nat): (m: real)
    ensures m * 60.0 == (end - start) as real
    ensures start <= end ==> m >= 0.0
    ensures start == end ==> m == 0.0
  {
    (end - start) as real / 60.0
  }

  /** Admits a session when the resource exists and fewer than `capacity` sessions are
      active on it; the new session starts at `now`. Nothing limits sessions per user. */
  function StartSession(st: Store, req: UsageSessionStart, now: nat): (r: Result<Reply<UsageSession>, Error>)
    ensures r == Err(ResourceNotFound) <==> ResourceService.GetResourceById(st, req.resourceId).Err?
    ensures r.Ok? <==>
      && ResourceService.GetResourceById(st, req.resourceId).Ok?
      && GetActiveCount(st, req.resourceId) < ResourceService.GetResourceById(st, req.resourceId).value.capacity
    ensures r.Err? && r.error != ResourceNotFound ==>
      r.error == AtCapacity(GetActiveCount(st, req.resourceId), ResourceService.GetResourceById(st, req.resourceId).value.capacity)
    ensures r.Ok? ==>
      var st', s := r.value.store, r.value.body;
      && st'.sessions == st.sessions + [s]
      && s.id == st.nextSessionId
      && s.resourceId == req.resourceId
      && s.userId == req.userId
      && s.startTime == now
      && Running(s)
      && st'.nextSessionId == st.nextSessionId + 1
      && st'.(sessions := st.sessions, nextSessionId := st.nextSessionId) == st
  {
    var resource :- ResourceService.GetResourceById(st, req.resourceId);
    var active := GetActiveCount(st, req.resourceId);
    if active >= resource.capacity then
      Err(AtCapacity(active, resource.capacity))
    else
      var s := NewSession(st.nextSessionId, req.resourceId, req.userId, now);
      Ok(Reply(st.(sessions := st.sessions + [s], nextSessionId := st.nextSessionId + 1), s))
  }

  /** The session as completed at `now` at the given rate: inactive, ended, with its
      duration in minutes and its cost. */
  function Complete(s: UsageSession, now: nat, price: real): (done: UsageSession)
    ensures Finished(done)
    ensures done.(endTime := s.endTime, isActive := s.isActive, durationMinutes := s.durationMinutes, cost := s.cost) == s
    ensures done.endTime == Some(now)
    ensures done.durationMinutes.value * 60.0 == (now - s.startTime) as real
    ensures done.cost.value == done.durationMinutes.value * price
  {
    var minutes := DurationMinutes(s.startTime, now);
    s.(endTime := Some(now), isActive := false, durationMinutes := Some(minutes), cost := Some(minutes * price))
  }

  /** The billing record for a session completed at `now` at the given rate. */
  function Bill(id: int, s: UsageSession, now: nat, price: real): (b: BillingRecord)
    ensures b.id == id && b.usageSessionId == s.id && b.resourceId == s.resourceId && b.userId == s.userId
    ensures b.durationMinutes * 60.0 == (now - s.startTime) as real
    ensures b.pricePerMinute == price && b.totalCost == b.durationMinutes * price
  {
    var minutes := DurationMinutes(s.startTime, now);
    BillingRecord(id, s.id, s.resourceId, s.userId, minutes, price, minutes * price)
  }

  /** Completes the active session with the given id at `now`: sets its end time, duration and
      cost (priced at the resource's current rate) and appends one billing record. Fails, with
      nothing committed, when no such session is active or its resource no longer exists. */
  function StopSession(st: Store, sessionId: int, now: nat): (r: Result<Reply<UsageSession>, Error>)
    ensures r == Err(ActiveSessionNotFound)
      <==> forall i :: 0 <= i < |st.sessions| ==> !(st.sessions[i].id == sessionId && st.sessions[i].isActive)
    ensures r.Err? ==> r.error == ActiveSessionNotFound || r.error == ResourceNotFound
    ensures
      && (exists i :: 0 <= i < |st.sessions| && st.sessions[i].id == sessionId && st.sessions[i].isActive)
      && (forall i :: 0 <= i < |st.sessions| && st.sessions[i].id == sessionId && st.sessions[i].isActive ==>
            ResourceService.GetResourceById(st, st.sessions[i].resourceId).Ok?)
      ==> r.Ok?
    ensures r == Err(ResourceNotFound) ==>
      exists i :: 0 <= i < |st.sessions| && st.sessions[i].id == sessionId && st.sessions[i].isActive
        && ResourceService.GetResourceById(st, st.sessions[i].resourceId).Err?
    ensures r.Ok? ==>
      exists i, resource ::
        && 0 <= i < |st.sessions| && st.sessions[i].id == sessionId && st.sessions[i].isActive
        && ResourceService.GetResourceById(st, st.sessions[i].resourceId) == Ok(resource)
        && r.value.body == Complete(st.sessions[i], now, resource.pricePerMinute)
        && r.value.store.sessions == st.sessions[i := r.value.body]
        && r.value.store.billing
           == st.billing + [Bill(st.nextBillingId, st.sessions[i], now, resource.pricePerMinute)]
    ensures r.Ok? ==>
      && r.value.store.(sessions := st.sessions, billing := st.billing, nextBillingId := st.nextBillingId) == st
      && r.value.store.nextBillingId == st.nextBillingId + 1
  {
    var i :- OrFail(Seqs.IndexOf(st.sessions, ActiveWithId(sessionId)), ActiveSessionNotFound);
    var s := st.sessions[i];
    var resource :- ResourceService.GetResourceById(st, s.resourceId);
    var done := Complete(s, now, resource.pricePerMinute);
    assert ActiveWithId(sessionId)(s);
    Ok(Reply(st.(sessions := st.sessions[i := done],
                 billing := st.billing + [Bill(st.nextBillingId, s, now, resource.pricePerMinute)],
                 nextBillingId := st.nextBillingId + 1), done))
  }

  /** Every session of a resource, active or not. */
  function GetSessionsByResource(st: Store, resourceId: int): (r: seq<UsageSession>)
    ensures forall j :: 0 <= j < |r| ==> r[j] in st.sessions && r[j].resourceId == resourceId
    ensures forall i :: 0 <= i < |st.sessions| && st.sessions[i].resourceId == resourceId ==> st.sessions[i] in r
    ensures multiset(r) <= multiset(st.sessions)
  {
    Seqs.FilterSubMultiset(st.sessions, OnResource(resourceId));
    Seqs.Filter(st.sessions, OnResource(resourceId))
  }

  /** Every session of a user, active or not. */
  function GetSessionsByUser(st: Store, userId: string): (r: seq<UsageSession>)
    ensures forall j :: 0 <= j < |r| ==> r[j] in st.sessions && r[j].userId == userId
    ensures forall i :: 0 <= i < |st.sessions| && st.sessions[i].userId == userId ==> st.sessions[i] in r
    ensures multiset(r) <= multiset(st.sessions)
  {
    Seqs.FilterSubMultiset(st.sessions, ByUser(userId));
    Seqs.Filter(st.sessions, ByUser(userId))
  }

  function GetAllSessions(st: Store): seq<UsageSession>
  {
    st.sessions
  }
}
