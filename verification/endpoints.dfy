/** The snag endpoints that change the database: `create_snag`,
    `update_snag` and `delete_snag`. The snag collection (in creation order)
    and the notification collection are the fields of one object that the
    handlers update in place. */
module Endpoints {
  import opened SnagTypes
  import QueryNumbers
  import AuthorityAssignment
  import Access
  import opened UpdateGate
  import Notifications

  /** The fields of a `SnagCreate` body that the server's logic uses. */
  datatype CreateRequest = CreateRequest(
    project: string,
    location: string,
    priority: string,
    contractor: Option<UserId>,
    authorityId: Option<UserId>,
    authorityIds: seq<UserId>)

  /** The snag `create_snag` stores for a request, given the store it is
      added to, the new document id and the creator. */
  function NewSnag(store: seq<Snag>, req: CreateRequest, id: SnagId, creator: UserId): (s: Snag)
    ensures s.queryNo == QueryNumbers.NextQueryNo(store, req.project)
    ensures s.status == Open && !s.contractorCompleted && !s.authorityApproved
    ensures s.authorityId == FirstOrNone(s.authorityIds)
    ensures s.id == id && s.createdBy == creator && s.project == req.project && s.assignedContractor == req.contractor
    ensures s.location == req.location && s.priority == req.priority
    // the merged request, or else the building's newest assignment
    ensures var previous := AuthorityAssignment.PreviousAssignment(store, req.project);
            s.authorityIds == AuthorityAssignment.AssignAuthorities(
              req.authorityIds, req.authorityId, if previous.Some? then Some(store[previous.value]) else None)
  {
    var previous := AuthorityAssignment.PreviousAssignment(store, req.project);
    var ids := AuthorityAssignment.AssignAuthorities(
      req.authorityIds, req.authorityId,
      if previous.Some? then Some(store[previous.value]) else None);
    Snag(id, QueryNumbers.NextQueryNo(store, req.project), req.project, req.location, req.priority,
         Open, req.contractor, FirstOrNone(ids), ids, creator, false, false)
  }

  class SnagDatabase {
    /** `db.snags`, in creation order. */
    var snags: seq<Snag>
    /** `db.notifications`, in insertion order. */
    var notifications: seq<Notifications.Notice>
    /** `db.users`, read for the completion notice. */
    var users: seq<Notifications.User>

    /** The database gives every document a distinct id. Per-building
        numbering (`QueryNumbers.Numbered`) is not part of it: a manager who
        moves a snag to another building can break it, and the handlers accept
        such a store. */
    ghost predicate Valid()
      reads this
    {
      UniqueIds(snags)
    }

    constructor (users: seq<Notifications.User>)
      ensures Valid() && QueryNumbers.Numbered(snags)
      ensures snags == [] && notifications == [] && this.users == users
    {
      snags := [];
      notifications := [];
      this.users := users;
    }

    /** `create_snag`: managers and inspectors only; the new snag takes the
        building's next query number and its authority list, and the
        contractor and each authority are notified once. */
    method CreateSnag(caller: Caller, req: CreateRequest, newId: SnagId) returns (r: Result<Snag, HttpError>)
      requires Valid()
      requires forall s :: s in snags ==> s.id != newId   // the database issues a fresh id
      modifies this
      ensures Valid()
      ensures old(QueryNumbers.Numbered(snags)) ==> QueryNumbers.Numbered(snags)
      ensures users == old(users)
      ensures r.Err? <==> caller.role !in Access.CreateRoles
      ensures r.Err? ==> r.error == NotEnoughPermissions && snags == old(snags) && notifications == old(notifications)
      ensures r.Ok? ==> r.value == NewSnag(old(snags), req, newId, caller.id)
      ensures r.Ok? ==> snags == old(snags) + [r.value]
      ensures r.Ok? ==> notifications == old(notifications) + Notifications.CreateNotices(req.contractor, r.value.authorityIds)
    {
      var allowed := Access.RequireRole(Access.CreateRoles, caller);
      if allowed.Err? {
        return Err(allowed.error);
      }
      var s := NewSnag(snags, req, newId, caller.id);
      if QueryNumbers.Numbered(snags) {
        QueryNumbers.AppendKeepsNumbered(snags, s);
      }
      snags := snags + [s];
      var notices := Notifications.PlanCreateNotifications(req.contractor, s.authorityIds);
      notifications := notifications + notices;
      r := Ok(s);
    }

    /** `update_snag`: 404 for an unknown id, then the role gate; an accepted
        update is written with `$set` and the edge-triggered notices go out,
        the completion notice to the first 100 authorities and managers. */
    method UpdateSnag(caller: Caller, id: SnagId, req: Request, now: Time) returns (r: Result<Snag, HttpError>)
      requires Valid() && WellFormed(req)
      modifies this
      ensures UniqueIds(snags)
      ensures users == old(users)
      ensures Find(old(snags), id).None? ==> r == Err(SnagNotFound)
      ensures r.Err? ==> snags == old(snags) && notifications == old(notifications)
      ensures Find(old(snags), id).Some? ==>
                var k := Find(old(snags), id).value;
                var g := Gate(caller, old(snags)[k], req, now);
                && (r.Err? <==> g.Err?)
                && (g.Err? ==> r == Err(g.error))
                && (g.Ok? ==> r == Ok(Apply(old(snags)[k], g.value.data))
                              && snags == old(snags)[k := r.value]
                              && notifications == old(notifications) +
                                   Notifications.UpdateNotices(old(snags)[k], g.value.data, g.value.newStatus,
                                                               Notifications.Staff(users)))
      // numbering survives every update that does not move the snag to another building
      ensures old(QueryNumbers.Numbered(snags)) && ProjectName !in Provided(req) ==> QueryNumbers.Numbered(snags)
    {
      var found := Find(snags, id);
      if found.None? {
        return Err(SnagNotFound);
      }
      var k := found.value;
      var snag := snags[k];
      var g := Gate(caller, snag, req, now);
      if g.Err? {
        return Err(g.error);
      }
      var updated := Apply(snag, g.value.data);
      if ProjectName !in Provided(req) && QueryNumbers.Numbered(snags) {
        GateWritesOnlyRequested(caller, snag, req, now);
        KeepingBuildingKeepsNumbered(snags, k, updated);
      }
      KeepingIdKeepsUnique(snags, k, updated);
      snags := snags[k := updated];
      var notices := Notifications.PlanUpdateNotifications(snag, g.value.data, g.value.newStatus, Notifications.Staff(users));
      notifications := notifications + notices;
      r := Ok(updated);
    }

    /** `delete_snag`: managers only; 404 when no snag has the id. */
    method DeleteSnag(caller: Caller, id: SnagId) returns (r: Result<SnagId, HttpError>)
      requires Valid()
      modifies this
      ensures Valid()
      ensures old(QueryNumbers.Numbered(snags)) ==> QueryNumbers.Numbered(snags)
      ensures notifications == old(notifications) && users == old(users)
      ensures caller.role != Manager ==> r == Err(NotEnoughPermissions) && snags == old(snags)
      ensures caller.role == Manager && Find(old(snags), id).None? ==> r == Err(SnagNotFound) && snags == old(snags)
      ensures caller.role == Manager && Find(old(snags), id).Some? ==>
                var k := Find(old(snags), id).value;
                r == Ok(id) && snags == old(snags)[..k] + old(snags)[k + 1..]
      ensures r.Ok? ==> forall s :: s in snags ==> s.id != id
    {
      var allowed := Access.RequireRole(Access.DeleteRoles, caller);
      if allowed.Err? {
        return Err(allowed.error);
      }
      var found := Find(snags, id);
      if found.None? {
        return Err(SnagNotFound);
      }
      var k := found.value;
      if QueryNumbers.Numbered(snags) {
        QueryNumbers.RemoveKeepsNumbered(snags, k);
      }
      RemoveKeepsUnique(snags, k);
      snags := snags[..k] + snags[k + 1..];
      r := Ok(id);
    }
  }

  /** Replacing a snag by one with the same id keeps the ids distinct. */
  lemma KeepingIdKeepsUnique(store: seq<Snag>, k: nat, t: Snag)
    requires UniqueIds(store) && k < |store| && t.id == store[k].id
    ensures UniqueIds(store[k := t])
  {
  }

  /** Replacing a snag by one with the same building and query number keeps
      the store numbered. */
  lemma KeepingBuildingKeepsNumbered(store: seq<Snag>, k: nat, t: Snag)
    requires QueryNumbers.Numbered(store) && k < |store|
    requires t.project == store[k].project && t.queryNo == store[k].queryNo
    ensures QueryNumbers.Numbered(store[k := t])
  {
    var u := store[k := t];
    forall s | s in u ensures s.queryNo >= 1 {
      var i :| 0 <= i < |u| && u[i] == s;
      assert s.queryNo == store[i].queryNo;
    }
  }

  /** Removing a snag keeps the others' ids distinct, and its id is gone. */
  lemma RemoveKeepsUnique(store: seq<Snag>, k: nat)
    requires UniqueIds(store) && k < |store|
    ensures UniqueIds(store[..k] + store[k + 1..])
    ensures forall s :: s in store[..k] + store[k + 1..] ==> s.id != store[k].id
  {
    var t := store[..k] + store[k + 1..];
    forall i, j | 0 <= i < j < |t| ensures t[i].id != t[j].id {
      var i' := if i < k then i else i + 1;
      var j' := if j < k then j else j + 1;
      assert t[i] == store[i'] && t[j] == store[j'];
    }
    forall s | s in t ensures s.id != store[k].id {
      var i :| 0 <= i < |t| && t[i] == s;
      assert s == store[if i < k then i else i + 1];
    }
  }

  /** A manager who renames a snag's building can give it a query number that
      building already uses. */
  lemma RenameCanDuplicateNumber()
    ensures var a := Snag(1, 1, "Tower A", "Lobby", "high", Open, None, None, [], "m1", false, false);
            var b := Snag(2, 1, "Tower B", "Roof", "low", Open, None, None, [], "m1", false, false);
            var moved := Apply(b, map[ProjectName := Text("Tower A")]);
            && QueryNumbers.Numbered([a, b])
            && !QueryNumbers.Numbered([a, moved])
  {
    var a := Snag(1, 1, "Tower A", "Lobby", "high", Open, None, None, [], "m1", false, false);
    var b := Snag(2, 1, "Tower B", "Roof", "low", Open, None, None, [], "m1", false, false);
    var moved := Apply(b, map[ProjectName := Text("Tower A")]);
    assert moved.project == "Tower A" && moved.queryNo == 1;
    assert [a, moved][0].project == [a, moved][1].project;
  }

  /** Deleting the building's newest snag hands its number to the next one. */
  lemma DeletedNumberIsReused()
    ensures var a := Snag(1, 1, "Tower A", "Lobby", "high", Open, None, None, [], "m1", false, false);
            var b := Snag(2, 2, "Tower A", "Roof", "low", Open, None, None, [], "m1", false, false);
            && QueryNumbers.NextQueryNo([a, b], "Tower A") == 3
            && QueryNumbers.NextQueryNo([a], "Tower A") == b.queryNo
  {
    var a := Snag(1, 1, "Tower A", "Lobby", "high", Open, None, None, [], "m1", false, false);
    var b := Snag(2, 2, "Tower A", "Roof", "low", Open, None, None, [], "m1", false, false);
    assert [a, b][1..] == [b];
    assert [b][1..] == [];
    assert [a][1..] == [];
  }
}
