/** Who is notified when a snag is created or updated. On create the
    assigned contractor comes first, then every assigned authority not already
    notified. On update, notices fire on the false-to-true edges of the
    completion and approval flags and on a change into `resolved`, and a
    "resolved" notice is suppressed for a group that was already notified in
    the same update. */
module Notifications {
  import opened SnagTypes
  import opened UpdateGate

  datatype NoticeKind =
    | NewSnagAssigned            // to the contractor, on create
    | NewSnagForAuthority        // to each assigned authority, on create
    | CompletedPendingApproval   // to authorities and managers
    | ApprovedByAuthority        // to the contractor and the creator
    | ResolvedForCreator         // "resolved (contractor completed & authority approved)"
    | ResolvedForContractor      // "resolved"

  /** One `send_notification` call. */
  datatype Notice = Notice(recipient: UserId, kind: NoticeKind)

  /** A registered user, as the user collection holds it. */
  datatype User = User(id: UserId, role: UserRole)

  function Recipients(ns: seq<Notice>): (r: seq<UserId>)
    ensures |r| == |ns|
    ensures forall i :: 0 <= i < |ns| ==> r[i] == ns[i].recipient
  {
    if ns == [] then [] else [ns[0].recipient] + Recipients(ns[1..])
  }

  lemma RecipientsAppend(ns: seq<Notice>, n: Notice)
    ensures Recipients(ns + [n]) == Recipients(ns) + [n.recipient]
  {
    var r := Recipients(ns + [n]);
    assert |r| == |Recipients(ns) + [n.recipient]|;
    forall i | 0 <= i < |r| ensures r[i] == (Recipients(ns) + [n.recipient])[i] {
      assert (ns + [n])[i] == if i < |ns| then ns[i] else n;
    }
  }

  // ---------------------------------------------------------------- create

  /** The authority loop of `create_snag`: each listed authority not yet a
      recipient is notified, in list order. */
  function AddAuthorities(acc: seq<Notice>, authorities: seq<UserId>): seq<Notice>
    decreases |authorities|
  {
    if authorities == [] then acc
    else
      var next := if authorities[0] in Recipients(acc) then acc
                  else acc + [Notice(authorities[0], NewSnagForAuthority)];
      AddAuthorities(next, authorities[1..])
  }

  /** The notices `create_snag` sends. */
  function CreateNotices(contractor: Option<UserId>, authorities: seq<UserId>): seq<Notice> {
    AddAuthorities(if Given(contractor) then [Notice(contractor.value, NewSnagAssigned)] else [], authorities)
  }

  /** The authority loop keeps what was sent, adds exactly the new
      authorities, and never notifies anyone twice. */
  lemma {:induction false} AddAuthoritiesSpec(acc: seq<Notice>, authorities: seq<UserId>)
    requires NoDuplicates(Recipients(acc))
    ensures var r := AddAuthorities(acc, authorities);
            && acc <= r
            && NoDuplicates(Recipients(r))
            && (forall u :: u in Recipients(r) <==> u in Recipients(acc) || u in authorities)
            && (forall i :: |acc| <= i < |r| ==> r[i].kind == NewSnagForAuthority)
    decreases |authorities|
  {
    if authorities != [] {
      var a := authorities[0];
      assert forall u :: u in authorities <==> u == a || u in authorities[1..];
      if a in Recipients(acc) {
        AddAuthoritiesSpec(acc, authorities[1..]);
      } else {
        var n := Notice(a, NewSnagForAuthority);
        var next := acc + [n];
        RecipientsAppend(acc, n);
        assert NoDuplicates(Recipients(next)) by {
          var rs := Recipients(next);
          forall i, j | 0 <= i < j < |rs| ensures rs[i] != rs[j] {
            if j == |acc| {
              assert rs[i] in Recipients(acc);
            }
          }
        }
        AddAuthoritiesSpec(next, authorities[1..]);
        var r := AddAuthorities(acc, authorities);
        assert r == AddAuthorities(next, authorities[1..]);
        assert r[|acc|] == n;
      }
    }
  }

  /** Create notices: one per recipient, the contractor first, then the
      assigned authorities. */
  lemma CreateNoticesSpec(contractor: Option<UserId>, authorities: seq<UserId>)
    ensures var ns := CreateNotices(contractor, authorities);
            && NoDuplicates(Recipients(ns))
            && (forall u :: u in Recipients(ns) <==> (Given(contractor) && u == contractor.value) || u in authorities)
            && (Given(contractor) ==> ns[0] == Notice(contractor.value, NewSnagAssigned))
            && (forall n :: n in ns && n.kind != NewSnagForAuthority ==>
                  Given(contractor) && n == Notice(contractor.value, NewSnagAssigned))
  {
    var first := if Given(contractor) then [Notice(contractor.value, NewSnagAssigned)] else [];
    AddAuthoritiesSpec(first, authorities);
    var ns := CreateNotices(contractor, authorities);
    forall n | n in ns && n.kind != NewSnagForAuthority
      ensures Given(contractor) && n == Notice(contractor.value, NewSnagAssigned)
    {
      var i :| 0 <= i < |ns| && ns[i] == n;
      assert i < |first|;
    }
  }

  /** The recipient loop of `create_snag`, tracking `notification_recipients`. */
  method PlanCreateNotifications(contractor: Option<UserId>, authorities: seq<UserId>) returns (notices: seq<Notice>)
    ensures notices == CreateNotices(contractor, authorities)
    ensures NoDuplicates(Recipients(notices))
    ensures forall u :: u in Recipients(notices) <==> (Given(contractor) && u == contractor.value) || u in authorities
  {
    var recipients: seq<UserId> := [];
    notices := [];
    if Given(contractor) {
      recipients := [contractor.value];
      notices := [Notice(contractor.value, NewSnagAssigned)];
    }
    for i := 0 to |authorities|
      invariant recipients == Recipients(notices)
      invariant AddAuthorities(notices, authorities[i..]) == CreateNotices(contractor, authorities)
    {
      assert authorities[i..][1..] == authorities[i + 1..];
      if authorities[i] !in recipients {
        RecipientsAppend(notices, Notice(authorities[i], NewSnagForAuthority));
        recipients := recipients + [authorities[i]];
        notices := notices + [Notice(authorities[i], NewSnagForAuthority)];
      }
    }
    assert authorities[|authorities|..] == [];
    CreateNoticesSpec(contractor, authorities);
  }

  // ---------------------------------------------------------------- update

  /** `to_list(100)` on the user query. */
  const StaffLimit: nat := 100

  /** The users told about a completion: authorities and managers, at most 100. */
  function Staff(users: seq<User>): (r: seq<UserId>)
    ensures |r| <= StaffLimit
    // the first authorities and managers, in user order
    ensures r <= StaffAll(users)
    ensures |r| == if |StaffAll(users)| <= StaffLimit then |StaffAll(users)| else StaffLimit
    ensures forall u :: u in r ==> exists v :: v in users && v.id == u && v.role in {Authority, Manager}
    ensures |StaffAll(users)| <= StaffLimit ==> r == StaffAll(users)
  {
    var all := StaffAll(users);
    var r := if |all| <= StaffLimit then all else all[..StaffLimit];
    assert forall u :: u in r ==> u in all;
    r
  }

  function StaffAll(users: seq<User>): (r: seq<UserId>)
    ensures forall u :: u in r <==> exists v :: v in users && v.id == u && v.role in {Authority, Manager}
  {
    if users == [] then []
    else
      var rest := StaffAll(users[1..]);
      assert forall v :: v in users <==> v == users[0] || v in users[1..];
      (if users[0].role in {Authority, Manager} then [users[0].id] else []) + rest
  }

  predicate CompletionEdge(snag: Snag, data: UpdateData) {
    Raised(data, ContractorCompleted) && !snag.contractorCompleted
  }

  predicate ApprovalEdge(snag: Snag, data: UpdateData) {
    Raised(data, AuthorityApproved) && !snag.authorityApproved
  }

  predicate ResolvedEdge(snag: Snag, newStatus: SnagStatus) {
    snag.status != newStatus && newStatus == Resolved
  }

  function ToEach(ids: seq<UserId>, kind: NoticeKind): (ns: seq<Notice>)
    ensures |ns| == |ids|
    ensures forall i :: 0 <= i < |ids| ==> ns[i] == Notice(ids[i], kind)
  {
    if ids == [] then [] else [Notice(ids[0], kind)] + ToEach(ids[1..], kind)
  }

  /** Completion notices: only on the false-to-true edge, to every staff user. */
  function CompletionNotices(snag: Snag, data: UpdateData, staff: seq<UserId>): (ns: seq<Notice>)
    ensures forall n :: n in ns ==> n.kind == CompletedPendingApproval && n.recipient in staff && CompletionEdge(snag, data)
    ensures CompletionEdge(snag, data) ==> forall u :: u in staff ==> Notice(u, CompletedPendingApproval) in ns
    ensures !CompletionEdge(snag, data) ==> ns == []
    // one notice per staff entry, in the staff order
    ensures CompletionEdge(snag, data) ==>
              |ns| == |staff| && forall i :: 0 <= i < |staff| ==> ns[i] == Notice(staff[i], CompletedPendingApproval)
  {
    if CompletionEdge(snag, data) then
      var ns := ToEach(staff, CompletedPendingApproval);
      assert forall u :: u in staff ==> Notice(u, CompletedPendingApproval) in ns by {
        forall u | u in staff ensures Notice(u, CompletedPendingApproval) in ns {
          var i :| 0 <= i < |staff| && staff[i] == u;
          assert ns[i] == Notice(u, CompletedPendingApproval);
        }
      }
      ns
    else []
  }

  /** Approval notices: only on the false-to-true edge, to the contractor when
      one is assigned, then to the creator. */
  function ApprovalNotices(snag: Snag, data: UpdateData): (ns: seq<Notice>)
    ensures forall n :: n in ns ==>
              && n.kind == ApprovedByAuthority && ApprovalEdge(snag, data)
              && (n.recipient == snag.createdBy || (Given(snag.assignedContractor) && n.recipient == snag.assignedContractor.value))
    ensures ApprovalEdge(snag, data) ==> Notice(snag.createdBy, ApprovedByAuthority) in ns
    ensures ApprovalEdge(snag, data) && Given(snag.assignedContractor) ==>
              Notice(snag.assignedContractor.value, ApprovedByAuthority) in ns
    ensures !ApprovalEdge(snag, data) ==> ns == []
    // one notice per recipient: the contractor's, then the creator's last
    ensures ApprovalEdge(snag, data) ==>
              |ns| == (if Given(snag.assignedContractor) then 2 else 1) && ns[|ns| - 1] == Notice(snag.createdBy, ApprovedByAuthority)
  {
    if ApprovalEdge(snag, data) then
      (if Given(snag.assignedContractor) then [Notice(snag.assignedContractor.value, ApprovedByAuthority)] else [])
      + [Notice(snag.createdBy, ApprovedByAuthority)]
    else []
  }

  /** "Resolved" notices: only on a change into resolved; the creator's is
      suppressed when the completion group was notified, the contractor's when
      the approval group was. */
  function ResolvedNotices(snag: Snag, data: UpdateData, newStatus: SnagStatus): (ns: seq<Notice>)
    ensures Notice(snag.createdBy, ResolvedForCreator) in ns <==>
              ResolvedEdge(snag, newStatus) && !CompletionEdge(snag, data)
    ensures (exists n :: n in ns && n.kind == ResolvedForContractor) <==>
              ResolvedEdge(snag, newStatus) && Given(snag.assignedContractor) && !ApprovalEdge(snag, data)
    ensures forall n :: n in ns ==>
              || (n.kind == ResolvedForCreator && n.recipient == snag.createdBy)
              || (n.kind == ResolvedForContractor && Some(n.recipient) == snag.assignedContractor)
    ensures !ResolvedEdge(snag, newStatus) ==> ns == []
    // at most one notice of each kind
    ensures |ns| == (if ResolvedEdge(snag, newStatus) && !CompletionEdge(snag, data) then 1 else 0)
                  + (if ResolvedEdge(snag, newStatus) && Given(snag.assignedContractor) && !ApprovalEdge(snag, data) then 1 else 0)
  {
    if ResolvedEdge(snag, newStatus) then
      var forCreator := if !CompletionEdge(snag, data) then [Notice(snag.createdBy, ResolvedForCreator)] else [];
      var forContractor :=
        if Given(snag.assignedContractor) && !ApprovalEdge(snag, data)
        then [Notice(snag.assignedContractor.value, ResolvedForContractor)] else [];
      assert forall n :: n in forCreator + forContractor <==> n in forCreator || n in forContractor;
      forCreator + forContractor
    else []
  }

  /** The notices `update_snag` sends, given the stored snag before the
      update, the update written, the resulting status and the staff list. */
  function UpdateNotices(snag: Snag, data: UpdateData, newStatus: SnagStatus, staff: seq<UserId>): (ns: seq<Notice>)
    ensures forall n :: n in ns && n.kind == CompletedPendingApproval ==> CompletionEdge(snag, data) && n.recipient in staff
    ensures CompletionEdge(snag, data) ==> forall u :: u in staff ==> Notice(u, CompletedPendingApproval) in ns
    ensures forall n :: n in ns && n.kind == ApprovedByAuthority ==>
              ApprovalEdge(snag, data) && (n.recipient == snag.createdBy || (Given(snag.assignedContractor) && n.recipient == snag.assignedContractor.value))
    ensures Notice(snag.createdBy, ApprovedByAuthority) in ns <==> ApprovalEdge(snag, data)
    ensures ApprovalEdge(snag, data) && Given(snag.assignedContractor) ==>
              Notice(snag.assignedContractor.value, ApprovedByAuthority) in ns
    ensures Notice(snag.createdBy, ResolvedForCreator) in ns <==>
              ResolvedEdge(snag, newStatus) && !CompletionEdge(snag, data)
    ensures (exists n :: n in ns && n.kind == ResolvedForContractor) <==>
              ResolvedEdge(snag, newStatus) && Given(snag.assignedContractor) && !ApprovalEdge(snag, data)
    ensures forall n :: n in ns ==> n.kind !in {NewSnagAssigned, NewSnagForAuthority}
    ensures !CompletionEdge(snag, data) && !ApprovalEdge(snag, data) && !ResolvedEdge(snag, newStatus) ==> ns == []
  {
    var c := CompletionNotices(snag, data, staff);
    var a := ApprovalNotices(snag, data);
    var r := ResolvedNotices(snag, data, newStatus);
    assert forall n :: n in c + a + r <==> n in c || n in a || n in r;
    c + a + r
  }

  /** The group markers kept in `notifications_sent`. */
  datatype Group = AuthorityGroup | ContractorGroup

  /** The notification steps of `update_snag`, building `notifications_sent`
      as it goes. */
  method PlanUpdateNotifications(snag: Snag, data: UpdateData, newStatus: SnagStatus, staff: seq<UserId>)
    returns (notices: seq<Notice>)
    ensures notices == UpdateNotices(snag, data, newStatus, staff)
  {
    var sent: seq<Group> := [];
    notices := [];
    if Raised(data, ContractorCompleted) && !snag.contractorCompleted {
      for i := 0 to |staff|
        invariant notices == ToEach(staff[..i], CompletedPendingApproval)
      {
        assert staff[..i + 1] == staff[..i] + [staff[i]];
        ToEachAppend(staff[..i], staff[i], CompletedPendingApproval);
        notices := notices + [Notice(staff[i], CompletedPendingApproval)];
      }
      assert staff[..|staff|] == staff;
      sent := sent + [AuthorityGroup];
    }
    assert notices == CompletionNotices(snag, data, staff);
    assert AuthorityGroup in sent <==> CompletionEdge(snag, data);
    ghost var afterCompletion := notices;
    if Raised(data, AuthorityApproved) && !snag.authorityApproved {
      if Given(snag.assignedContractor) {
        notices := notices + [Notice(snag.assignedContractor.value, ApprovedByAuthority)];
      }
      notices := notices + [Notice(snag.createdBy, ApprovedByAuthority)];
      sent := sent + [ContractorGroup];
    }
    assert notices == afterCompletion + ApprovalNotices(snag, data);
    assert AuthorityGroup in sent <==> CompletionEdge(snag, data);
    assert ContractorGroup in sent <==> ApprovalEdge(snag, data);
    ghost var afterApproval := notices;
    if snag.status != newStatus && newStatus == Resolved {
      if AuthorityGroup !in sent {
        notices := notices + [Notice(snag.createdBy, ResolvedForCreator)];
      }
      if Given(snag.assignedContractor) && ContractorGroup !in sent {
        notices := notices + [Notice(snag.assignedContractor.value, ResolvedForContractor)];
      }
    }
    assert notices == afterApproval + ResolvedNotices(snag, data, newStatus);
  }

  lemma ToEachAppend(ids: seq<UserId>, u: UserId, kind: NoticeKind)
    ensures ToEach(ids + [u], kind) == ToEach(ids, kind) + [Notice(u, kind)]
  {
    var l := ToEach(ids + [u], kind);
    var r := ToEach(ids, kind) + [Notice(u, kind)];
    assert |l| == |r|;
    forall i | 0 <= i < |l| ensures l[i] == r[i] {
      assert (ids + [u])[i] == if i < |ids| then ids[i] else u;
    }
  }

  // ------------------------------------------------- repeated update requests

  /** Sending an accepted request again, to the snag as it was stored, raises
      no completion or approval notice: the flags are edge-triggered. */
  lemma ResendRaisesNoFlagNotices(caller: Caller, snag: Snag, req: Request, now: Time, later: Time, staff: seq<UserId>)
    requires WellFormed(req)
    requires Gate(caller, snag, req, now).Ok?
    ensures var again := Apply(snag, Gate(caller, snag, req, now).value.data);
            && Gate(caller, again, req, later).Ok?
            && var b := Gate(caller, again, req, later).value;
               forall n :: n in UpdateNotices(again, b.data, b.newStatus, staff) ==>
                 n.kind != CompletedPendingApproval && n.kind != ApprovedByAuthority
  {
    var a := Gate(caller, snag, req, now).value;
    var again := Apply(snag, a.data);
    FlagsFollowRequest(caller, snag, req, now);
    ResendIsAccepted(caller, snag, req, now, later);
    var b := Gate(caller, again, req, later).value;
    FlagsFollowRequest(caller, again, req, later);
    assert !CompletionEdge(again, b.data);
    assert !ApprovalEdge(again, b.data);
  }

  /** A contractor who sends the same request twice changes nothing the
      second time and raises no notice at all. */
  lemma ContractorResendIsSilent(caller: Caller, snag: Snag, req: Request, now: Time, later: Time, staff: seq<UserId>)
    requires WellFormed(req) && caller.role == Contractor
    requires Gate(caller, snag, req, now).Ok?
    ensures var again := Apply(snag, Gate(caller, snag, req, now).value.data);
            && Gate(caller, again, req, later).Ok?
            && var b := Gate(caller, again, req, later).value;
               && b.newStatus == again.status
               && UpdateNotices(again, b.data, b.newStatus, staff) == []
  {
    ResendRaisesNoFlagNotices(caller, snag, req, now, later, staff);
    var a := Gate(caller, snag, req, now).value;
    var again := Apply(snag, a.data);
    var b := Gate(caller, again, req, later).value;
    ContractorResendKeepsStatus(caller, snag, req, now, later);
    assert !ResolvedEdge(again, b.newStatus);
  }
}
