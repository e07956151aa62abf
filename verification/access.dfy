/** Who may call what, and which snags a caller sees: `require_role` and the
    role-based query of `get_snags` (which lists newest first, at most 1000). */
module Access {
  import opened SnagTypes
  import AuthorityAssignment

  /** `require_role`: the dependency passes the caller through when their role
      is allowed and answers 403 otherwise. */
  function RequireRole(allowed: set<UserRole>, caller: Caller): (r: Result<Caller, HttpError>)
    ensures r.Ok? <==> caller.role in allowed
    ensures r.Ok? ==> r.value == caller
    ensures r.Err? ==> r.error == NotEnoughPermissions
  {
    if caller.role in allowed then Ok(caller) else Err(NotEnoughPermissions)
  }

  /** Roles allowed to create snags, to delete them, and to export them. */
  const CreateRoles: set<UserRole> := {Manager, Inspector}
  const DeleteRoles: set<UserRole> := {Manager}
  const ExportRoles: set<UserRole> := {Manager, Authority}

  /** The optional query parameters of `get_snags` that the model keeps. */
  datatype SnagFilter = SnagFilter(status: Option<SnagStatus>, priority: Option<string>, contractor: Option<UserId>)

  /** The role part of the query: a contractor sees the snags assigned to them,
      an authority those naming them in the legacy field or in the list, a
      manager or inspector every snag. */
  predicate RoleAllows(caller: Caller, s: Snag) {
    match caller.role
    case Contractor => s.assignedContractor == Some(caller.id)
    case Authority => s.authorityId == Some(caller.id) || caller.id in s.authorityIds
    case _ => true
  }

  /** The parameter part of the query; falsy parameters add no condition. */
  predicate FilterAllows(f: SnagFilter, s: Snag) {
    && (f.status.Some? ==> s.status == f.status.value)
    && (Given(f.priority) ==> s.priority == f.priority.value)
    && (Given(f.contractor) ==> s.assignedContractor == f.contractor)
  }

  /** The query as the code builds it: an explicit `assigned_contractor_id`
      parameter overwrites the key that held a contractor's own restriction. */
  predicate MatchesAsWritten(caller: Caller, f: SnagFilter, s: Snag) {
    && (caller.role == Contractor && !Given(f.contractor) ==> s.assignedContractor == Some(caller.id))
    && (caller.role == Authority ==> RoleAllows(caller, s))
    && FilterAllows(f, s)
  }

  /** The query as intended: the role restriction and the parameters together. */
  predicate Matches(caller: Caller, f: SnagFilter, s: Snag) {
    RoleAllows(caller, s) && FilterAllows(f, s)
  }

  /** The snags of the store satisfying `keep`, newest first (the store is in
      creation order, so sorting by created_at descending reverses it). */
  function NewestFirst(store: seq<Snag>, keep: Snag -> bool): (r: seq<Snag>)
    ensures forall s :: s in r <==> s in store && keep(s)
    ensures |r| <= |store|
  {
    if store == [] then []
    else
      var last := store[|store| - 1];
      assert forall s :: s in store <==> s in store[..|store| - 1] || s == last;
      (if keep(last) then [last] else []) + NewestFirst(store[..|store| - 1], keep)
  }

  /** The snags satisfying `keep`, in creation order. */
  function Filtered(store: seq<Snag>, keep: Snag -> bool): seq<Snag> {
    if store == [] then [] else (if keep(store[0]) then [store[0]] else []) + Filtered(store[1..], keep)
  }

  function Reversed(s: seq<Snag>): seq<Snag> {
    if s == [] then [] else Reversed(s[1..]) + [s[0]]
  }

  lemma {:induction false} FilteredAppend(store: seq<Snag>, x: Snag, keep: Snag -> bool)
    ensures Filtered(store + [x], keep) == Filtered(store, keep) + (if keep(x) then [x] else [])
  {
    var tail := if keep(x) then [x] else [];
    if store == [] {
      assert [x][1..] == [];
    } else {
      var head := if keep(store[0]) then [store[0]] else [];
      assert (store + [x])[0] == store[0];
      assert (store + [x])[1..] == store[1..] + [x];
      FilteredAppend(store[1..], x, keep);
      calc {
        Filtered(store + [x], keep);
        head + Filtered(store[1..] + [x], keep);
        head + (Filtered(store[1..], keep) + tail);
        (head + Filtered(store[1..], keep)) + tail;
        Filtered(store, keep) + tail;
      }
    }
  }

  lemma {:induction false} ReversedAppend(a: seq<Snag>, x: Snag)
    ensures Reversed(a + [x]) == [x] + Reversed(a)
  {
    if a == [] {
      assert [x][1..] == [];
    } else {
      assert (a + [x])[1..] == a[1..] + [x];
      ReversedAppend(a[1..], x);
    }
  }

  /** The listing order: the matching snags in reverse creation order, that
      is newest first. */
  lemma {:induction false} NewestFirstIsReversedFilter(store: seq<Snag>, keep: Snag -> bool)
    ensures NewestFirst(store, keep) == Reversed(Filtered(store, keep))
  {
    if store != [] {
      var init, last := store[..|store| - 1], store[|store| - 1];
      assert store == init + [last];
      NewestFirstIsReversedFilter(init, keep);
      FilteredAppend(init, last, keep);
      if keep(last) {
        ReversedAppend(Filtered(init, keep), last);
        assert NewestFirst(store, keep) == [last] + NewestFirst(init, keep);
      } else {
        assert Filtered(store, keep) == Filtered(init, keep);
        assert NewestFirst(store, keep) == NewestFirst(init, keep);
      }
    }
  }

  /** Each matching snag is listed as often as it is stored, and no other. */
  lemma {:induction false} NewestFirstCounts(store: seq<Snag>, keep: Snag -> bool)
    ensures forall s :: multiset(NewestFirst(store, keep))[s] == if keep(s) then multiset(store)[s] else 0
  {
    if store != [] {
      var init, last := store[..|store| - 1], store[|store| - 1];
      assert store == init + [last];
      NewestFirstCounts(init, keep);
      assert multiset(store) == multiset(init) + multiset{last};
    }
  }

  /** `to_list(1000)` */
  const ListLimit: nat := 1000

  function Capped(s: seq<Snag>): (r: seq<Snag>)
    ensures |r| <= ListLimit && r <= s
    ensures |r| == if |s| <= ListLimit then |s| else ListLimit
    ensures |s| <= ListLimit ==> r == s
  {
    if |s| <= ListLimit then s else s[..ListLimit]
  }

  /** Every snag the intended query of `get_snags` matches, newest first. */
  function Listed(store: seq<Snag>, caller: Caller, f: SnagFilter): seq<Snag> {
    NewestFirst(store, s => Matches(caller, f, s))
  }

  /** Every snag the query as the code builds it matches, newest first. */
  function ListedAsWritten(store: seq<Snag>, caller: Caller, f: SnagFilter): seq<Snag> {
    NewestFirst(store, s => MatchesAsWritten(caller, f, s))
  }

  /** `get_snags` with the intended query: the 1000 newest matching snags. */
  function ListSnags(store: seq<Snag>, caller: Caller, f: SnagFilter): (r: seq<Snag>)
    ensures |r| <= ListLimit
    ensures forall s :: s in r ==> s in store && Matches(caller, f, s)
    ensures r <= Listed(store, caller, f)
    ensures |r| == if |Listed(store, caller, f)| <= ListLimit then |Listed(store, caller, f)| else ListLimit
    ensures |Listed(store, caller, f)| <= ListLimit ==> r == Listed(store, caller, f)
  {
    var all := Listed(store, caller, f);
    assert forall s :: s in Capped(all) ==> s in all;
    Capped(all)
  }

  /** `get_snags` with the query as the code builds it. */
  function ListSnagsAsWritten(store: seq<Snag>, caller: Caller, f: SnagFilter): (r: seq<Snag>)
    ensures |r| <= ListLimit
    ensures forall s :: s in r ==> s in store && MatchesAsWritten(caller, f, s)
    ensures r <= ListedAsWritten(store, caller, f)
    ensures |r| == if |ListedAsWritten(store, caller, f)| <= ListLimit then |ListedAsWritten(store, caller, f)| else ListLimit
    ensures |ListedAsWritten(store, caller, f)| <= ListLimit ==> r == ListedAsWritten(store, caller, f)
  {
    var all := ListedAsWritten(store, caller, f);
    assert forall s :: s in Capped(all) ==> s in all;
    Capped(all)
  }

  /** Every matching snag is listed as long as at most 1000 snags match. */
  lemma ListIsCompleteUnderLimit(store: seq<Snag>, caller: Caller, f: SnagFilter)
    requires |Listed(store, caller, f)| <= ListLimit
    ensures forall s :: s in store && Matches(caller, f, s) ==> s in ListSnags(store, caller, f)
  {
  }

  /** With the intended query a contractor lists only snags assigned to them,
      whatever parameters they pass. */
  lemma ContractorSeesOnlyOwn(store: seq<Snag>, caller: Caller, f: SnagFilter)
    requires caller.role == Contractor
    ensures forall s :: s in ListSnags(store, caller, f) ==> s.assignedContractor == Some(caller.id)
  {
  }

  /** An authority lists only snags whose normalised authority list (as
      `get_snags` reports it) contains them. */
  lemma AuthoritySeesOnlyAssigned(store: seq<Snag>, caller: Caller, f: SnagFilter)
    requires caller.role == Authority && caller.id != ""
    ensures forall s :: s in ListSnags(store, caller, f) ==>
              caller.id in AuthorityAssignment.ReadAuthorities(s.authorityId, s.authorityIds).ids
  {
    forall s | s in ListSnags(store, caller, f)
      ensures caller.id in AuthorityAssignment.ReadAuthorities(s.authorityId, s.authorityIds).ids
    {
      assert RoleAllows(caller, s);
      if s.authorityId == Some(caller.id) {
        assert Given(s.authorityId);
      }
    }
  }

  /** As written, a contractor who passes another contractor's id as the
      `assigned_contractor_id` parameter is shown that contractor's snags. */
  lemma ContractorFilterLeaks()
    ensures var other := Snag(0, 1, "Tower A", "Lobby", "high", Open, Some("c2"), None, [], "m1", false, false);
            var caller := Caller("c1", Contractor);
            var f := SnagFilter(None, None, Some("c2"));
            other in ListSnagsAsWritten([other], caller, f) && other !in ListSnags([other], caller, f)
  {
    var other := Snag(0, 1, "Tower A", "Lobby", "high", Open, Some("c2"), None, [], "m1", false, false);
    var caller := Caller("c1", Contractor);
    var f := SnagFilter(None, None, Some("c2"));
    assert MatchesAsWritten(caller, f, other);
  }
}
