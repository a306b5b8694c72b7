/** End-to-end runs of the service layer from an empty database, with the clock in seconds. */
module Scenarios {
  import opened Wrappers
  import opened Errors
  import opened Models
  import opened Schemas
  import ResourceService
  import UsageSessionService
  import BillingService
  import Invariants

  const Gpu := Resource(1, "gpu", None, 1, 2.5)
  const FirstSession := NewSession(1, 1, "u1", 0)
  const FirstBill := BillingRecord(1, 1, 1, "u1", 10.0, 2.5, 25.0)
  const FirstDone := FirstSession.(endTime := Some(600), isActive := false,
                                   durationMinutes := Some(10.0), cost := Some(25.0))

  /** Creating the resource in the empty database gives it id 1. */
  lemma GpuCreated()
    ensures ResourceService.CreateResource(Empty, ResourceCreate("gpu", None, 1, 2.5))
         == Ok(Reply(Store([Gpu], [], [], 2, 1, 1), Gpu))
  {
    assert [] + [Gpu] == [Gpu];
  }

  /** The first user takes the only seat; the second is turned away with status 400. */
  lemma SeatTaken()
    ensures UsageSessionService.StartSession(Store([Gpu], [], [], 2, 1, 1), UsageSessionStart(1, "u1"), 0)
         == Ok(Reply(Store([Gpu], [FirstSession], [], 2, 2, 1), FirstSession))
    ensures UsageSessionService.StartSession(Store([Gpu], [FirstSession], [], 2, 2, 1), UsageSessionStart(1, "u2"), 60)
         == Err(AtCapacity(1, 1))
  {
    var st1 := Store([Gpu], [], [], 2, 1, 1);
    Invariants.LookupIsUnique(st1, 0);
    assert UsageSessionService.GetActiveCount(st1, 1) == 0;
    Invariants.StartRaisesCount(st1, UsageSessionStart(1, "u1"), 0, 1);
    Invariants.LookupIsUnique(Store([Gpu], [FirstSession], [], 2, 2, 1), 0);
    assert [] + [FirstSession] == [FirstSession];
  }

  /** Stopping after 600 seconds bills 10 minutes at 2.5, that is 25.0. */
  lemma SeatReleased()
    ensures UsageSessionService.StopSession(Store([Gpu], [FirstSession], [], 2, 2, 1), 1, 600)
         == Ok(Reply(Store([Gpu], [FirstDone], [FirstBill], 2, 2, 2), FirstDone))
  {
    var st2 := Store([Gpu], [FirstSession], [], 2, 2, 1);
    Invariants.LookupIsUnique(st2, 0);
    assert UsageSessionService.DurationMinutes(0, 600) == 10.0;
    assert UsageSessionService.Complete(FirstSession, 600, 2.5) == FirstDone;
    assert UsageSessionService.Bill(1, FirstSession, 600, 2.5) == FirstBill;
    assert [FirstSession][0 := FirstDone] == [FirstDone];
    assert [] + [FirstBill] == [FirstBill];
    var i, price := Invariants.StopWitness(st2, 1, 600);
  }

  /** After the stop the user has spent 25.0, a second stop is refused, and the seat is free. */
  lemma AfterRelease()
    ensures BillingService.GetUserTotalSpent(Store([Gpu], [FirstDone], [FirstBill], 2, 2, 2), "u1") == 25.0
    ensures UsageSessionService.StopSession(Store([Gpu], [FirstDone], [FirstBill], 2, 2, 2), 1, 660)
         == Err(ActiveSessionNotFound)
    ensures UsageSessionService.StartSession(Store([Gpu], [FirstDone], [FirstBill], 2, 2, 2), UsageSessionStart(1, "u2"), 600).Ok?
  {
    var st3 := Store([Gpu], [FirstDone], [FirstBill], 2, 2, 2);
    BillingService.TotalSpentAfterAppend(st3.(billing := []), FirstBill, "u1");
    assert [] + [FirstBill] == [FirstBill];
    Invariants.LookupIsUnique(st3, 0);
    assert UsageSessionService.GetActiveCount(st3, 1) == 0;
  }

  /** A single-seat resource at 2.5 per minute: a second user is turned away with status 400
      while the seat is taken; stopping after 600 seconds bills 10 minutes at 25.0, a second
      stop is refused, and the seat is free again for the second user. */
  lemma SingleSeatRun()
    ensures
      var created := ResourceService.CreateResource(Empty, ResourceCreate("gpu", None, 1, 2.5));
      && created.Ok? && created.value.body.id == 1
      && var st1 := created.value.store;
         var started := UsageSessionService.StartSession(st1, UsageSessionStart(1, "u1"), 0);
         && started.Ok? && started.value.body.id == 1
         && var st2 := started.value.store;
            var refused := UsageSessionService.StartSession(st2, UsageSessionStart(1, "u2"), 60);
            && refused == Err(AtCapacity(1, 1)) && Status(refused.error) == 400
            && var stopped := UsageSessionService.StopSession(st2, 1, 600);
               && stopped.Ok?
               && stopped.value.body.durationMinutes == Some(10.0)
               && stopped.value.body.cost == Some(25.0)
               && stopped.value.store.billing == [BillingRecord(1, 1, 1, "u1", 10.0, 2.5, 25.0)]
               && BillingService.GetUserTotalSpent(stopped.value.store, "u1") == 25.0
               && UsageSessionService.StopSession(stopped.value.store, 1, 660) == Err(ActiveSessionNotFound)
               && UsageSessionService.StartSession(stopped.value.store, UsageSessionStart(1, "u2"), 600).Ok?
  {
    GpuCreated();
    SeatTaken();
    SeatReleased();
    AfterRelease();
  }

  /** Three starts on a resource of capacity 3 succeed, two of them by the same user, and a
      fourth is refused. */
  lemma ThreeSeatRun()
    ensures
      var st0 := Store([Resource(1, "desk", None, 3, 1.0)], [], [], 2, 1, 1);
      var a := UsageSessionService.StartSession(st0, UsageSessionStart(1, "u1"), 0);
      && a.Ok?
      && var b := UsageSessionService.StartSession(a.value.store, UsageSessionStart(1, "u1"), 1);
         && b.Ok?
         && var c := UsageSessionService.StartSession(b.value.store, UsageSessionStart(1, "u2"), 2);
            && c.Ok?
            && UsageSessionService.StartSession(c.value.store, UsageSessionStart(1, "u3"), 3) == Err(AtCapacity(3, 3))
  {
    var st0 := Store([Resource(1, "desk", None, 3, 1.0)], [], [], 2, 1, 1);
    Invariants.LookupIsUnique(st0, 0);
    assert UsageSessionService.GetActiveCount(st0, 1) == 0;
    var a := UsageSessionService.StartSession(st0, UsageSessionStart(1, "u1"), 0);
    assert a.Ok?;
    Invariants.StartRaisesCount(st0, UsageSessionStart(1, "u1"), 0, 1);
    Invariants.LookupIsUnique(a.value.store, 0);
    var b := UsageSessionService.StartSession(a.value.store, UsageSessionStart(1, "u1"), 1);
    assert b.Ok?;
    Invariants.StartRaisesCount(a.value.store, UsageSessionStart(1, "u1"), 1, 1);
    Invariants.LookupIsUnique(b.value.store, 0);
    var c := UsageSessionService.StartSession(b.value.store, UsageSessionStart(1, "u2"), 2);
    assert c.Ok?;
    Invariants.StartRaisesCount(b.value.store, UsageSessionStart(1, "u2"), 2, 1);
    Invariants.LookupIsUnique(c.value.store, 0);
  }
}
