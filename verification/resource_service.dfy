/** Resource registry: lookup, creation with a unique name, partial update, deletion. */
module ResourceService {
  import opened Wrappers
  import opened Errors
  import opened Models
  import opened Schemas
  import Seqs

  function HasId(id: int): Resource -> bool
  {
    (r: Resource) => r.id == id
  }

  function HasName(name: string): Resource -> bool
  {
    (r: Resource) => r.name == name
  }

  /** Position of the first resource with the given id. */
  function FindResource(st: Store, id: int): (r: Result<nat, Error>)
    ensures r.Ok? ==> r.value < |st.resources| && st.resources[r.value].id == id
    ensures r.Err? <==> forall i :: 0 <= i < |st.resources| ==> st.resources[i].id != id
    ensures r.Err? ==> r.error == ResourceNotFound
  {
    OrFail(Seqs.IndexOf(st.resources, HasId(id)), ResourceNotFound)
  }

  /** The resource with the given id, or not-found. */
  function GetResourceById(st: Store, id: int): (r: Result<Resource, Error>)
    ensures r.Ok? ==> r.value in st.resources && r.value.id == id
    ensures r.Err? <==> forall i :: 0 <= i < |st.resources| ==> st.resources[i].id != id
    ensures r.Err? ==> r.error == ResourceNotFound
  {
    var i :- FindResource(st, id);
    Ok(st.resources[i])
  }

  function GetAllResources(st: Store): seq<Resource>
  {
    st.resources
  }

  /** Refuses a name some resource already carries; otherwise inserts one resource under
      the next id with the requested fields. */
  function CreateResource(st: Store, req: ResourceCreate): (r: Result<Reply<Resource>, Error>)
    ensures r.Err? <==> exists i :: 0 <= i < |st.resources| && st.resources[i].name == req.name
    ensures r.Err? ==> r.error == DuplicateName
    ensures r.Ok? ==>
      var st', res := r.value.store, r.value.body;
      && st'.resources == st.resources + [res]
      && res.id == st.nextResourceId
      && res.name == req.name
      && res.description == req.description
      && res.capacity == req.capacity
      && res.pricePerMinute == req.pricePerMinute
      && st'.nextResourceId == st.nextResourceId + 1
      && st'.sessions == st.sessions
      && st'.billing == st.billing
      && st'.nextSessionId == st.nextSessionId
      && st'.nextBillingId == st.nextBillingId
  {
    if Seqs.IndexOf(st.resources, HasName(req.name)).Some? then
      Err(DuplicateName)
    else
      var res := Resource(st.nextResourceId, req.name, req.description, req.capacity, req.pricePerMinute);
      Ok(Reply(st.(resources := st.resources + [res], nextResourceId := st.nextResourceId + 1), res))
  }

  /** The value of a NOT NULL column after a patch; `None` when the patch writes null. */
  function Required<T>(current: T, p: Patch<T>): Option<T>
  {
    match p
    case Unset => Some(current)
    case Null => None
    case Given(v) => Some(v)
  }

  /** The value of a nullable column after a patch. */
  function Nullable<T>(current: Option<T>, p: Patch<T>): Option<T>
  {
    match p
    case Unset => current
    case Null => None
    case Given(v) => Some(v)
  }

  /** Some resource other than the one at position `i` carries `name`. */
  predicate NameTakenElsewhere(rs: seq<Resource>, i: nat, name: string)
  {
    exists j :: 0 <= j < |rs| && j != i && rs[j].name == name
  }

  /** Writes the fields present in the update onto the resource. The commit fails when a
      NOT NULL column is set to null or the new name belongs to another resource. */
  function UpdateResource(st: Store, id: int, upd: ResourceUpdate): (r: Result<Reply<Resource>, Error>)
    ensures r == Err(ResourceNotFound) <==> forall i :: 0 <= i < |st.resources| ==> st.resources[i].id != id
    ensures r.Err? && r.error != ResourceNotFound ==> r.error == IntegrityViolation
    ensures r.Ok? <==>
      && FindResource(st, id).Ok?
      && !upd.name.Null? && !upd.capacity.Null? && !upd.pricePerMinute.Null?
      && var i := FindResource(st, id).value;
         !NameTakenElsewhere(st.resources, i, Required(st.resources[i].name, upd.name).value)
    ensures r.Ok? ==>
      var i := FindResource(st, id).value;
      var cur, st', res := st.resources[i], r.value.store, r.value.body;
      && st'.resources == st.resources[i := res]
      && res.id == id
      && res.name == (if upd.name.Given? then upd.name.value else cur.name)
      && res.description == (if upd.description.Given? then Some(upd.description.value)
                             else if upd.description.Null? then None else cur.description)
      && res.capacity == (if upd.capacity.Given? then upd.capacity.value else cur.capacity)
      && res.pricePerMinute == (if upd.pricePerMinute.Given? then upd.pricePerMinute.value else cur.pricePerMinute)
    ensures r.Ok? ==> r.value.store.(resources := st.resources) == st
    ensures upd.name.Null? || upd.capacity.Null? || upd.pricePerMinute.Null? ==> r.Err?
  {
    var i :- FindResource(st, id);
    var cur := st.resources[i];
    match (Required(cur.name, upd.name), Required(cur.capacity, upd.capacity), Required(cur.pricePerMinute, upd.pricePerMinute))
    case (Some(name), Some(capacity), Some(price)) =>
      var res := Resource(cur.id, name, Nullable(cur.description, upd.description), capacity, price);
      if NameTakenElsewhere(st.resources, i, name) then Err(IntegrityViolation)
      else Ok(Reply(st.(resources := st.resources[i := res]), res))
    case _ => Err(IntegrityViolation)
  }

  /** Removes the resource with the given id; its sessions and billing records stay. */
  function DeleteResource(st: Store, id: int): (r: Result<Store, Error>)
    ensures r.Err? <==> forall i :: 0 <= i < |st.resources| ==> st.resources[i].id != id
    ensures r.Err? ==> r.error == ResourceNotFound
    ensures r.Ok? ==> r.value.resources == Seqs.RemoveAt(st.resources, FindResource(st, id).value)
    ensures r.Ok? ==> r.value.(resources := st.resources) == st
  {
    var i :- FindResource(st, id);
    Ok(st.(resources := Seqs.RemoveAt(st.resources, i)))
  }
}
