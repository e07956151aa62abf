/** Authority assignment: a snag carries a list of authority ids and, for
    backward compatibility, a legacy single id. `create_snag` merges the two
    request fields (falling back to the building's previous assignment), and
    `get_snags` folds the legacy id into the list when it reads a snag. */
module AuthorityAssignment {
  import opened SnagTypes

  /** The filter of the fallback lookup at create: same building, and either a
      non-empty authority list or a legacy id that is not None. */
  predicate HasAssignment(s: Snag, project: string) {
    s.project == project && (s.authorityIds != [] || s.authorityId.Some?)
  }

  /** The newest snag (by creation) matching `HasAssignment`, as the lookup
      sorted by created_at descending finds it. */
  function PreviousAssignment(store: seq<Snag>, project: string): (r: Option<nat>)
    ensures r.Some? ==> r.value < |store| && HasAssignment(store[r.value], project)
    ensures r.Some? ==> forall j :: r.value < j < |store| ==> !HasAssignment(store[j], project)
    ensures r.None? ==> forall j :: 0 <= j < |store| ==> !HasAssignment(store[j], project)
  {
    if store == [] then None
    else if HasAssignment(store[|store| - 1], project) then Some(|store| - 1)
    else PreviousAssignment(store[..|store| - 1], project)
  }

  /** What the building's previous snag passes on: its list when non-empty,
      otherwise its legacy id when that is truthy. */
  function Inherited(previous: Option<Snag>): seq<UserId>
  {
    match previous
    case None => []
    case Some(p) =>
      if p.authorityIds != [] then p.authorityIds
      else if Given(p.authorityId) then [p.authorityId.value]
      else []
  }

  /** The authority list `create_snag` stores: the requested list, then the
      legacy id when given and not already listed; when both are empty, what
      the building's previous snag passes on. */
  function AssignAuthorities(ids: seq<UserId>, legacy: Option<UserId>, previous: Option<Snag>): (r: seq<UserId>)
    // an explicit request is kept in order, with the legacy id added at most once
    ensures (ids != [] || Given(legacy)) ==> ids <= r
    ensures (ids != [] || Given(legacy)) ==> |r| == |ids| + (if Given(legacy) && legacy.value !in ids then 1 else 0)
    ensures Given(legacy) ==> legacy.value in r
    ensures (ids != [] || Given(legacy)) ==> forall a :: a in r ==> a in ids || (Given(legacy) && a == legacy.value)
    ensures (ids != [] || Given(legacy)) && NoDuplicates(ids) ==> NoDuplicates(r)
    // only an empty request falls back to the building's history
    ensures ids == [] && !Given(legacy) ==> r == Inherited(previous)
  {
    var requested := if Given(legacy) && legacy.value !in ids then ids + [legacy.value] else ids;
    assert Given(legacy) ==> legacy.value in requested;
    if requested != [] then requested else Inherited(previous)
  }

  /** The authority fields of a snag as `get_snags` reports them. */
  datatype AuthorityView = AuthorityView(ids: seq<UserId>, first: Option<UserId>)

  /** Read-side normalisation: a truthy legacy id missing from the list is put
      in front; the reported single id is the first of the list, or the stored
      legacy value when the list is empty. */
  function ReadAuthorities(legacy: Option<UserId>, ids: seq<UserId>): (v: AuthorityView)
    ensures Given(legacy) ==> legacy.value in v.ids
    ensures forall a :: a in ids ==> a in v.ids
    ensures forall a :: a in v.ids ==> a in ids || (Given(legacy) && a == legacy.value)
    // a missing truthy legacy id goes in front and is reported as the single id
    ensures Given(legacy) && legacy.value !in ids ==> v.ids == [legacy.value] + ids && v.first == legacy
    ensures !(Given(legacy) && legacy.value !in ids) ==> v.ids == ids
    ensures NoDuplicates(ids) ==> NoDuplicates(v.ids)
    ensures v.ids != [] ==> v.first == Some(v.ids[0])
    ensures v.ids == [] ==> v.first == legacy && !Given(legacy)
  {
    var all := if Given(legacy) && legacy.value !in ids then [legacy.value] + ids else ids;
    AuthorityView(all, if all != [] then Some(all[0]) else legacy)
  }

  /** Normalising is idempotent: reading back a normalised view changes nothing. */
  lemma ReadIsIdempotent(legacy: Option<UserId>, ids: seq<UserId>)
    ensures var v := ReadAuthorities(legacy, ids);
            ReadAuthorities(v.first, v.ids) == v
  {
  }

  /** What `create_snag` stores (the list, and its first element as the
      legacy id) is read back unchanged. */
  lemma ReadAfterCreateIsIdentity(ids: seq<UserId>, legacy: Option<UserId>, previous: Option<Snag>)
    ensures var stored := AssignAuthorities(ids, legacy, previous);
            ReadAuthorities(FirstOrNone(stored), stored) == AuthorityView(stored, FirstOrNone(stored))
  {
  }
}
