# Usage & billing service layer — Dafny model

This project models the backend service layer of a usage-and-billing system. Users check out
capacity-limited resources for timed sessions and are billed per minute. The layer works on three
database tables: `resources`, `usage_sessions` and `billing_records`. The model treats it as a
sequential state machine over an immutable `Store` that holds those tables and the next primary
key of each.

- `Models` holds the row shapes, the empty database, and two kinds of table constraint:
  - the ones the database enforces: distinct primary keys, a UNIQUE non-null resource `name`,
    and the NOT NULL columns;
  - the ones the services maintain: every key comes from its table's counter; a session names a
    resource id that was allocated, with no foreign key, so the resource may since have been
    deleted; a session row is either running or finished, although its completion columns are
    nullable independently.
- `Schemas` holds the request bodies and their field validation. Failures are answered with 422.
- `ResourceService` holds the registry: lookup, creation with a duplicate-name check, partial
  update, and deletion.
- `UsageSessionService` holds the session operations:
  - admission against capacity (`StartSession`);
  - completion with billing (`StopSession`);
  - the active count;
  - the per-resource and per-user session queries.
- `BillingService` holds direct record insertion, the per-user and per-resource queries, and a
  user's total spend.
- `Invariants` states the store invariants and proves that each operation preserves them, or
  shows that it does not:
  - the table constraints;
  - the correspondence between billing records and sessions: a running session has no billing
    record, a finished session has exactly one, and every record settles a session with that
    session's resource, user, duration and cost;
  - admission within capacity.
- `Scenarios` holds end-to-end runs from an empty database.

Every operation is a pure function. Every operation that can fail returns `Result<…, Error>`.
The queries, `GetActiveCount` and `CreateBillingRecord` cannot fail and return plain values. An
error leaves the store as it was, which models "nothing is committed". `Error` mirrors the HTTP answers:

| error | status |
|---|---|
| duplicate name | 400 |
| capacity reached | 400 |
| missing resource | 404 |
| no such active session | 404 |
| validation failure | 422 |
| database constraint violation during an update | 500 |

Time is an abstract clock in whole seconds, passed to `StartSession` and `StopSession` as `now`.
A duration is `(end - start) / 60` minutes as an exact `real`. A cost is duration times price.
Nothing is rounded, because the code does not round.

The list-everything queries `GetAllResources`, `GetAllSessions` and `GetBillingRecords` return
their table as it is. They carry no contract. `Models.NewSession` builds a fresh session row.
Its defaults (`is_active` true, end time, duration and cost null) are stated by
`StartSession`'s contract.

Some behaviours of the code worth knowing, all of which the model keeps:
- A capacity refusal answers 400.
- Stopping a session that is already stopped answers the same 404 as an unknown id ("Active
  session not found").
- `total_cost` is stored exactly as computed, without rounding.
- A user may hold any number of sessions at once, on one resource or on several.
- The price is read from the resource when the session stops, not when it starts.
- Deleting a resource is allowed while it has active sessions.
- An update may lower capacity below the active count, or set a zero or negative price.

## Model

| member | source | states |
|---|---|---|
| Errors.Status | backend/app/services.py:69-73 | a capacity refusal and a duplicate name answer 400; a missing resource or a missing or stopped session answers 404; a validation failure answers 422; a database constraint violation answers 500 |
| Seqs.IndexOf | backend/app/services.py:14 | `.first()`: the position of the first row matching the filter, with no earlier match; none exactly when no row matches |
| Seqs.Filter | backend/app/services.py:143 | `.all()` on a filter: every returned row is in the table and matches, and every matching row is returned |
| Seqs.FilterSubMultiset | backend/app/services.py:143 | `.all()` returns no row more often than the table holds it, so with distinct rows each matching row appears exactly once |
| Seqs.Count | backend/app/services.py:59-62 | `.count()`: at most the table size, and zero exactly when no row matches |
| Seqs.RemoveAt | backend/app/services.py:51 | deleting a row shortens the table by one and keeps every other row in its order |
| Seqs.SumAppend | backend/app/services.py:193 | the sum over a concatenation is the sum of the two parts' sums |
| Seqs.CountAppend | backend/app/services.py:81 | inserting a row raises a filtered count by one exactly when the row matches |
| Seqs.CountUpdate | backend/app/services.py:102-103 | changing one row in place changes a filtered count only by what the old and new row contribute |
| Seqs.CountTwo | backend/app/services.py:136 | two distinct matching rows make a count of at least two |
| Schemas.ValidateResourceCreate | backend/app/schemas.py:6-10 | a creation body is accepted exactly when the name has 1 to 100 characters, capacity > 0 and price > 0, so a zero price is refused; a refusal names exactly the offending fields |
| Schemas.ValidateUsageSessionStart | backend/app/schemas.py:33-35 | a start body is accepted exactly when `resource_id > 0` and `user_id` is non-empty; a refusal names the offending fields |
| Schemas.ValidateUsageSessionStop | backend/app/schemas.py:38-39 | a stop body is accepted exactly when `session_id > 0` |
| ResourceService.GetResourceById | backend/app/services.py:12-17 | returns a stored resource with the requested id, and fails with not-found exactly when no resource has that id |
| ResourceService.CreateResource | backend/app/services.py:19-34 | fails with the duplicate-name error exactly when some resource already has the name; otherwise appends one resource under the next id with the given name, description, capacity and price, and changes nothing else |
| ResourceService.UpdateResource | backend/app/services.py:36-46 | not-found exactly when the id is unknown, and every other failure is the integrity violation; otherwise it succeeds exactly when no required column is set to null and the new name is not another resource's name; on success it overwrites only the fields present in the body, keeps the id, and changes no other resource, session or billing record |
| ResourceService.DeleteResource | backend/app/services.py:48-53 | fails with not-found exactly when no resource has the id; otherwise removes that one resource and leaves sessions and billing records in place |
| UsageSessionService.GetActiveCount | backend/app/services.py:57-62 | counts active sessions of the resource; zero exactly when none is active |
| UsageSessionService.DurationMinutes | backend/app/services.py:105-108 | the duration times 60 equals the elapsed seconds; it is non-negative when the clock has not gone back |
| UsageSessionService.Complete | backend/app/services.py:101-124 | a completed session is finished, ends at `now`, keeps its id, resource, user and start, lasts the elapsed seconds over 60 minutes, and costs its duration times the price |
| UsageSessionService.Bill | backend/app/services.py:126-134 | the billing record names the session, its resource and its user, carries the elapsed minutes and the price, and totals duration times price |
| UsageSessionService.StartSession | backend/app/services.py:64-84 | not-found exactly when the resource is unknown; the session is admitted exactly when the active count is below capacity, and otherwise refused with the count and the capacity; an admitted session is appended under the next id, is running, has the requested resource and user, starts at `now`, and nothing else changes |
| UsageSessionService.StopSession | backend/app/services.py:86-140 | fails with not-found exactly when no session with the id is active; the only other failure is a missing resource, and it occurs only when an active session with the id has no resource; when the active session's resource exists the stop succeeds; on success the session becomes inactive, with end `now`, duration and cost at the resource's current price; exactly one billing record with those values is appended; nothing else changes |
| UsageSessionService.GetSessionsByResource | backend/app/services.py:141-143 | returns the sessions of the resource: every returned row is a stored row that matches, every matching row is returned, and no row is returned more often than it is stored |
| UsageSessionService.GetSessionsByUser | backend/app/services.py:145-147 | returns the sessions of the user: every returned row is a stored row that matches, every matching row is returned, and no row is returned more often than it is stored |
| BillingService.CreateBillingRecord | backend/app/services.py:155-176 | appends exactly one record with the given fields under the next id and changes nothing else |
| BillingService.GetBillingByUser | backend/app/services.py:182-184 | returns the user's billing records: every returned row is a stored row that matches, every matching row is returned, and no row is returned more often than it is stored |
| BillingService.GetBillingByResource | backend/app/services.py:186-188 | returns the resource's billing records: every returned row is a stored row that matches, every matching row is returned, and no row is returned more often than it is stored |
| BillingService.GetUserTotalSpent | backend/app/services.py:190-193 | is 0 when the user has no billing records |
| BillingService.TotalSpentAfterAppend | backend/app/services.py:190-193 | a user's total is the running sum of their records' `total_cost`: a new record raises only its own user's total, by its cost |
| Invariants.EmptyIsWf | backend/app/models.py:7-42 | the empty database satisfies every table constraint and the capacity bound |
| Invariants.LookupIsUnique | backend/app/models.py:10 | with distinct primary keys, looking up a stored id returns exactly that row |
| Invariants.UnusedIdIsIdle | backend/app/models.py:23 | a resource id no session could refer to has no active sessions |
| Invariants.SessionShape | backend/app/schemas.py:42-50 | in a consistent store a session has no end time, duration or cost exactly while it is active |
| Invariants.CreatePreservesWf | backend/app/services.py:21-34 | creation keeps primary keys distinct and names unique |
| Invariants.CreatePreservesCapacity | backend/app/schemas.py:9 | a validly created resource starts with no active sessions, so every resource stays within capacity |
| Invariants.NewResourceAdmits | backend/app/schemas.py:6-10 | a validly created resource admits a session immediately |
| Invariants.UpdatePreservesWf | backend/app/models.py:11 | an update keeps names unique and every table consistent |
| Invariants.UpdateCapacityCondition | backend/app/services.py:40-42 | after an update every resource is within capacity exactly when the new capacity covers the resource's active sessions |
| Invariants.UpdateCanOverfill | backend/app/schemas.py:13-17 | an update that lowers capacity below the active count is accepted and leaves the resource over capacity |
| Invariants.DeletePreservesWf | backend/app/services.py:48-53 | deletion keeps every table consistent |
| Invariants.DeletePreservesCapacity | backend/app/services.py:48-53 | deletion keeps every remaining resource within capacity |
| Invariants.DeleteRemovesId | backend/app/services.py:48-53 | after a deletion no remaining resource carries the deleted id |
| Invariants.DeleteStrandsSessions | backend/app/services.py:111-120 | after a resource is deleted, stopping one of its running sessions fails with not-found |
| Invariants.StopWithoutResource | backend/app/services.py:112-120 | with distinct session ids, stopping an active session whose resource no longer exists fails with not-found |
| Invariants.AddRunningSession | backend/app/services.py:75-82 | inserting a running session with a fresh id keeps the session-to-billing correspondence |
| Invariants.AddKeepsCounts | backend/app/services.py:75-82 | a freshly inserted running session has no billing record, and every other session keeps its record count |
| Invariants.AddKeepsRecords | backend/app/services.py:75-82 | inserting a session leaves every billing record settling the session it settled |
| Invariants.AppendKeepsSessionTable | backend/app/services.py:75-82 | a running session inserted under the next id, on an allocated resource id, keeps session keys distinct and every row running or finished |
| Invariants.StartPreservesWf | backend/app/services.py:75-84 | admission keeps every table consistent and the billing correspondence intact |
| Invariants.StartRaisesCount | backend/app/services.py:75-82 | admission raises the resource's active count by exactly one and no other resource's count |
| Invariants.StartPreservesCapacity | backend/app/services.py:68-73 | admission never takes a resource past its capacity |
| Invariants.StopWitness | backend/app/services.py:89-137 | a successful stop completed the active session with that id, at the price of an existing resource with the session's resource id |
| Invariants.BillSettlesCompletion | backend/app/services.py:122-134 | the appended record carries the stopped session's id, resource and user, and its duration and cost; its total is duration times price |
| Invariants.AppendKeepsBillingTable | backend/app/models.py:36 | a record appended under the next id keeps billing keys distinct |
| Invariants.FinishKeepsSessionTable | backend/app/models.py:26-29 | completing a running session keeps the session table consistent |
| Invariants.SettleSession | backend/app/services.py:101-137 | completing a session and appending its record keeps every finished session with exactly one record |
| Invariants.SettleKeepsCounts | backend/app/services.py:101-137 | after a stop the finished session has exactly one billing record and every other session keeps its count |
| Invariants.SettleKeepsRecords | backend/app/services.py:126-137 | after a stop every billing record, old or new, still settles some session |
| Invariants.SettleKeepsWf | backend/app/services.py:101-137 | completing an active session and billing it under the next id keeps every table consistent |
| Invariants.StopPreservesWf | backend/app/services.py:101-137 | a stop keeps every table consistent and the billing correspondence intact |
| Invariants.StopLowersCount | backend/app/services.py:101-103 | a stop lowers the session's resource's active count by exactly one and no other count |
| Invariants.StopPreservesCapacity | backend/app/services.py:101-103 | a stop keeps every resource within capacity |
| Invariants.SecondStopFails | backend/app/services.py:89-99 | stopping the same session again fails with not-found, so it cannot produce a second billing record |
| Invariants.FinishedSessionIsBilled | backend/app/services.py:126-137 | with distinct session ids and the billing correspondence, every finished session has a billing record that settles it |
| Invariants.AtMostOneBillPerSession | backend/app/services.py:126-137 | no two billing records name the same session |
| Invariants.StopChargesOnlyItsUser | backend/app/services.py:190-193 | a stop raises the stopping user's total spend by the session's cost and leaves every other user's total unchanged |
| Invariants.StopValidationAdmitsEverySession | backend/app/schemas.py:38-39 | every stored session id passes stop validation, and an id that fails it names no active session |
| Invariants.StartValidationAdmitsEveryResource | backend/app/schemas.py:33-35 | a start with a resource id that validation would refuse finds no resource |
| Scenarios.GpuCreated | backend/app/services.py:19-34 | the first resource created in an empty database gets id 1 |
| Scenarios.SeatTaken | backend/app/services.py:64-84 | on a single-seat resource the first start succeeds and a second start is refused with the count 1 and the capacity 1 |
| Scenarios.SeatReleased | backend/app/services.py:101-137 | stopping after 600 seconds at 2.5 per minute records 10 minutes and 25.0 in the session and in one billing record |
| Scenarios.AfterRelease | backend/app/services.py:87-99 | after the stop the user has spent 25.0, a second stop is refused, and the seat can be taken again |
| Scenarios.SingleSeatRun | backend/app/services.py:64-140 | the whole single-seat run: create, start, refused start with status 400, stop, refused second stop, restart |
| Scenarios.ThreeSeatRun | backend/app/services.py:68-73 | three starts on a resource of capacity 3 succeed, two of them by one user, and the fourth is refused |

## Left out

- Database plumbing is not modelled: sessions, `add`/`commit`/`refresh`, and the `created_at`/`updated_at` timestamps. A failed operation returns an error and leaves the store unchanged. That stands for "nothing committed".
- Primary keys come from a per-table counter starting at 1, so ids are never reused. The database engine's own key allocation (`database.py`) is not part of this model. An engine that reuses the highest deleted id could give a deleted resource's orphaned sessions a new owner. This model does not cover that.
- Concurrency is not modelled. The gap between counting active sessions and inserting a new one is one example. Another is the gap between the duplicate-name check and the insert. Each operation is atomic and operations run one after another.
- Wall-clock time is not modelled. This includes time zones and the mix of `datetime.now(timezone.utc)` with `datetime.utcnow()`. The clock is a natural number of seconds supplied by the caller. Subtracting a naive time from an aware one would raise an error on some databases. The model instead always computes the difference.
- Floating point is not modelled. Durations, prices and costs are exact reals.
- Routing, CORS, the health endpoint, the startup hook and the whole frontend are not modelled. This includes polling and display formatting. The routes are thin wrappers that validate a body and call one service.
- UsageSessionService.DurationMinutes: the model does not require the clock to be monotonic. A stop time earlier than the start time yields a negative duration, just as the code computes one.
- BillingService.GetUserTotalSpent: its contract fixes only the empty case. The summation itself is stated by BillingService.TotalSpentAfterAppend and Invariants.StopChargesOnlyItsUser.
- BillingService.CreateBillingRecord: nothing calls it. Calling it directly could break the one-record-per-finished-session invariant. The invariant lemmas therefore cover only the resource and session operations.
