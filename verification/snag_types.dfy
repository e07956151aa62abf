/** Values shared by the whole snag server model: roles, statuses, the
    stored snag document, optional values, results carrying an HTTP error,
    and the small sequence predicates the other modules use. */
module SnagTypes {

  datatype Option<+T> = None | Some(value: T)

  datatype Result<+T, +E> = Ok(value: T) | Err(error: E)

  /** User ids are the string form of the database object id. */
  type UserId = string

  /** Snag ids are opaque server-assigned identities. */
  type SnagId = nat

  /** A reading of the server clock. */
  type Time = int

  datatype UserRole = Manager | Inspector | Contractor | Authority

  datatype SnagStatus = Open | InProgress | Resolved | Verified

  /** The authenticated caller of an endpoint. */
  datatype Caller = Caller(id: UserId, role: UserRole)

  /** An HTTP error response: status code and fixed detail text. */
  datatype HttpError = HttpError(code: nat, detail: string)

  const NotEnoughPermissions := HttpError(403, "Not enough permissions")
  const SnagNotFound := HttpError(404, "Snag not found")

  /** The fields of a stored snag document that the server's logic reads or
      writes. The description, possible solution, coordinates, photos, cost
      estimate, feedback and comment texts, and all dates are not kept. */
  datatype Snag = Snag(
    id: SnagId,
    queryNo: int,
    project: string,
    location: string,
    priority: string,
    status: SnagStatus,
    assignedContractor: Option<UserId>,
    authorityId: Option<UserId>,      // legacy single-authority field
    authorityIds: seq<UserId>,        // multi-authority list
    createdBy: UserId,
    contractorCompleted: bool,
    authorityApproved: bool)

  /** Python truthiness of an optional string: both None and "" are false. */
  predicate Given(o: Option<string>) {
    o.Some? && o.value != ""
  }

  predicate NoDuplicates<T(==)>(s: seq<T>) {
    forall i, j :: 0 <= i < j < |s| ==> s[i] != s[j]
  }

  /** Python's `ids[0] if ids else None`. */
  function FirstOrNone<T>(s: seq<T>): (r: Option<T>)
    ensures r.None? <==> s == []
    ensures r.Some? ==> r.value == s[0]
  {
    if s == [] then None else Some(s[0])
  }

  /** The ids of all snags in a store are distinct. */
  predicate UniqueIds(store: seq<Snag>) {
    forall i, j :: 0 <= i < j < |store| ==> store[i].id != store[j].id
  }

  /** The position of the snag with the given id, as `find_one({"_id": id})`. */
  function Find(store: seq<Snag>, id: SnagId): (r: Option<nat>)
    ensures r.Some? ==> r.value < |store| && store[r.value].id == id
    ensures r.None? ==> forall s :: s in store ==> s.id != id
  {
    if store == [] then None
    else if store[0].id == id then Some(0)
    else match Find(store[1..], id)
      case None => None
      case Some(k) => Some(k + 1)
  }
}
