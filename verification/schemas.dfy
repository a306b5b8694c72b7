/** Request bodies and the field constraints checked before a service is called. */
module Schemas {
  import opened Wrappers
  import opened Errors

  /** Body of a resource creation. */
  datatype ResourceCreate = ResourceCreate(
    name: string,
    description: Option<string>,
    capacity: int,
    pricePerMinute: real)

  /** One field of a partial update: left out of the body, sent as null, or given a value. */
  datatype Patch<T> = Unset | Null | Given(value: T)

  /** Body of a resource update. Every field is optional and carries no bound. */
  datatype ResourceUpdate = ResourceUpdate(
    name: Patch<string>,
    description: Patch<string>,
    capacity: Patch<int>,
    pricePerMinute: Patch<real>)

  /** Body of a session start. */
  datatype UsageSessionStart = UsageSessionStart(resourceId: int, userId: string)

  /** Body of a session stop. */
  datatype UsageSessionStop = UsageSessionStop(sessionId: int)

  /** A name of 1 to 100 characters, a capacity above zero and a price above zero. */
  function ValidateResourceCreate(c: ResourceCreate): (r: Result<ResourceCreate, Error>)
    ensures r.Ok? <==> 1 <= |c.name| <= 100 && c.capacity > 0 && c.pricePerMinute > 0.0
    ensures r.Ok? ==> r.value == c
    ensures r.Err? ==> r.error.Unprocessable?
    ensures r.Err? ==> ("name" in r.error.fields <==> !(1 <= |c.name| <= 100))
    ensures r.Err? ==> ("capacity" in r.error.fields <==> c.capacity <= 0)
    ensures r.Err? ==> ("price_per_minute" in r.error.fields <==> c.pricePerMinute <= 0.0)
  {
    var fields :=
      (if 1 <= |c.name| <= 100 then [] else ["name"])
      + (if c.capacity > 0 then [] else ["capacity"])
      + (if c.pricePerMinute > 0.0 then [] else ["price_per_minute"]);
    if fields == [] then Ok(c) else Err(Unprocessable(fields))
  }

  /** A positive resource id and a non-empty user id. */
  function ValidateUsageSessionStart(s: UsageSessionStart): (r: Result<UsageSessionStart, Error>)
    ensures r.Ok? <==> s.resourceId > 0 && |s.userId| >= 1
    ensures r.Ok? ==> r.value == s
    ensures r.Err? ==> r.error.Unprocessable?
    ensures r.Err? ==> ("resource_id" in r.error.fields <==> s.resourceId <= 0)
    ensures r.Err? ==> ("user_id" in r.error.fields <==> |s.userId| == 0)
  {
    var fields :=
      (if s.resourceId > 0 then [] else ["resource_id"])
      + (if |s.userId| >= 1 then [] else ["user_id"]);
    if fields == [] then Ok(s) else Err(Unprocessable(fields))
  }

  /** A positive session id. */
  function ValidateUsageSessionStop(s: UsageSessionStop): (r: Result<UsageSessionStop, Error>)
    ensures r.Ok? <==> s.sessionId > 0
    ensures r.Ok? ==> r.value == s
    ensures r.Err? ==> r.error == Unprocessable(["session_id"])
  {
    if s.sessionId > 0 then Ok(s) else Err(Unprocessable(["session_id"]))
  }

  predicate ValidResourceCreate(c: ResourceCreate)
  {
    ValidateResourceCreate(c).Ok?
  }

  predicate ValidUsageSessionStart(s: UsageSessionStart)
  {
    ValidateUsageSessionStart(s).Ok?
  }

  predicate ValidUsageSessionStop(s: UsageSessionStop)
  {
    ValidateUsageSessionStop(s).Ok?
  }
}
