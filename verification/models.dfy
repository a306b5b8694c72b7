/** The three tables of the service layer and the constraints on their rows. Primary keys, the
    UNIQUE non-null resource name and the NOT NULL columns are enforced by the database; that
    every key comes from its table's counter, that a session names a resource id that was
    allocated (there is no foreign key), and that a session is either running or finished
    are row shapes the services maintain. */
module Models {
  import opened Wrappers

  /** A row of `resources`. `name`, `capacity` and `price_per_minute` are NOT NULL;
      `description` is nullable. */
  datatype Resource = Resource(
    id: int,
    name: string,
    description: Option<string>,
    capacity: int,
    pricePerMinute: real)

  /** A row of `usage_sessions`. `resource_id`, `user_id` and `start_time` are NOT NULL;
      `end_time`, `duration_minutes` and `cost` are nullable. Times are seconds on an abstract clock. */
  datatype UsageSession = UsageSession(
    id: int,
    resourceId: int,
    userId: string,
    startTime: nat,
    endTime: Option<nat>,
    isActive: bool,
    durationMinutes: Option<real>,
    cost: Option<real>)

  /** A row of `billing_records`; every column is NOT NULL. */
  datatype BillingRecord = BillingRecord(
    id: int,
    usageSessionId: int,
    resourceId: int,
    userId: string,
    durationMinutes: real,
    pricePerMinute: real,
    totalCost: real)

  /** The database: three tables in insertion order, and the next primary key of each. */
  datatype Store = Store(
    resources: seq<Resource>,
    sessions: seq<UsageSession>,
    billing: seq<BillingRecord>,
    nextResourceId: int,
    nextSessionId: int,
    nextBillingId: int)

  /** A committed transition together with the object the service returns. */
  datatype Reply<T> = Reply(store: Store, body: T)

  /** The empty database; primary keys start at 1. */
  const Empty := Store([], [], [], 1, 1, 1)

  /** A session row as inserted: `is_active` takes its column default (true) and the
      nullable columns start out null. */
  function NewSession(id: int, resourceId: int, userId: string, startTime: nat): UsageSession
  {
    UsageSession(id, resourceId, userId, startTime, None, true, None, None)
  }

  /** A running session: active, and none of the completion columns set. */
  predicate Running(s: UsageSession)
  {
    s.isActive && s.endTime.None? && s.durationMinutes.None? && s.cost.None?
  }

  /** A finished session: inactive, and all completion columns set. */
  predicate Finished(s: UsageSession)
  {
    !s.isActive && s.endTime.Some? && s.durationMinutes.Some? && s.cost.Some?
  }

  /** Primary keys of `resources` are distinct (a database constraint) and below the counter
      (the model's allocation); `name` is UNIQUE (a database constraint). */
  predicate ResourceTableOk(rs: seq<Resource>, nextResourceId: int)
  {
    && nextResourceId >= 1
    && (forall i :: 0 <= i < |rs| ==> 1 <= rs[i].id < nextResourceId)
    && (forall i, j :: 0 <= i < j < |rs| ==> rs[i].id != rs[j].id)
    && (forall i, j :: 0 <= i < j < |rs| ==> rs[i].name != rs[j].name)
  }

  /** Primary keys of `usage_sessions` are distinct (a database constraint) and below the
      counter. The rest is kept by the services, not the database: every session names a
      resource id that was allocated at some point (no foreign key, so the resource may since
      have been deleted), and every row is either running or finished (the completion columns
      are independently nullable, and the service sets them together). */
  predicate SessionTableOk(ss: seq<UsageSession>, nextSessionId: int, nextResourceId: int)
  {
    && nextSessionId >= 1
    && (forall i :: 0 <= i < |ss| ==> 1 <= ss[i].id < nextSessionId)
    && (forall i, j :: 0 <= i < j < |ss| ==> ss[i].id != ss[j].id)
    && (forall i :: 0 <= i < |ss| ==> 1 <= ss[i].resourceId < nextResourceId)
    && (forall i :: 0 <= i < |ss| ==> Running(ss[i]) || Finished(ss[i]))
  }

  /** Primary keys of `billing_records` are distinct (a database constraint) and below the counter. */
  predicate BillingTableOk(bs: seq<BillingRecord>, nextBillingId: int)
  {
    && nextBillingId >= 1
    && (forall i :: 0 <= i < |bs| ==> 1 <= bs[i].id < nextBillingId)
    && (forall i, j :: 0 <= i < j < |bs| ==> bs[i].id != bs[j].id)
  }
}
