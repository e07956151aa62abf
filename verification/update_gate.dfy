/** The snag state machine of `update_snag`: which role may send which
    fields, how the status follows from the completion and approval flags,
    and how the accepted update is written to the stored snag. */
module UpdateGate {
  import opened SnagTypes

  /** The fields of an update request, plus `UpdatedAt`, which only the
      server writes. */
  datatype Field =
    | Description | Location | ProjectName | PossibleSolution | UtmCoordinates | Photos
    | Status | Priority | CostEstimate
    | AssignedContractorId | AssignedAuthorityId | AssignedAuthorityIds
    | DueDate | AuthorityFeedback | AuthorityComment
    | WorkStartedDate | WorkCompletedDate | ContractorCompletionDate
    | ContractorCompleted | AuthorityApproved
    | UpdatedAt

  /** A field value; photos and the cost estimate are kept opaque. */
  datatype Value =
    | Text(text: string)
    | Flag(flag: bool)
    | State(status: SnagStatus)
    | Instant(time: Time)
    | Ids(ids: seq<UserId>)
    | Opaque

  /** The value shape each field has after request validation. */
  predicate Fits(f: Field, v: Value) {
    match f
    case Status => v.State?
    case ContractorCompleted | AuthorityApproved => v.Flag?
    case DueDate | WorkStartedDate | WorkCompletedDate | ContractorCompletionDate | UpdatedAt => v.Instant?
    case AssignedAuthorityIds => v.Ids?
    case Photos | CostEstimate => v.Opaque?
    case _ => v.Text?
  }

  /** The fields the client set, each with a value or an explicit None. */
  type Request = map<Field, Option<Value>>

  /** The `update_data` dictionary written with `$set`. */
  type UpdateData = map<Field, Value>

  predicate WellFormed(req: Request) {
    && UpdatedAt !in req
    && forall f :: f in req && req[f].Some? ==> Fits(f, req[f].value)
  }

  predicate WellTyped(data: UpdateData) {
    forall f :: f in data ==> Fits(f, data[f])
  }

  /** The fields sent with a value other than None. */
  function Provided(req: Request): set<Field> {
    set f | f in req && req[f].Some?
  }

  /** The sent fields with None values dropped. */
  function Present(req: Request): (data: UpdateData)
    ensures data.Keys == Provided(req)
    ensures forall f :: f in data ==> req[f] == Some(data[f])
  {
    map f | f in req && req[f].Some? :: req[f].value
  }

  const ContractorFields: set<Field> := {ContractorCompleted, WorkStartedDate, WorkCompletedDate, ContractorCompletionDate}
  const AuthorityFields: set<Field> := {AuthorityApproved, AuthorityFeedback, AuthorityComment, Status}

  const NotAssigned := HttpError(403, "Not assigned to this snag")
  const ContractorFieldsOnly := HttpError(403, "Contractors can only mark completion and set completion date")
  const AuthorityFieldsOnly := HttpError(403, "Authority can only approve, provide feedback and comments")

  /** Python truthiness of a flag in the update: present and true. */
  predicate Raised(data: UpdateData, f: Field) {
    f in data && data[f] == Flag(true)
  }

  /** `update_data.get("status", old_status)` */
  function StatusAfter(data: UpdateData, current: SnagStatus): SnagStatus {
    if Status in data && data[Status].State? then data[Status].status else current
  }

  /** The contractor's completion rule: a raised completion flag stamps the
      completion date with the current time on every such request, moves an
      open snag to in_progress, and resolves it if the authority had approved. */
  function ContractorMarks(snag: Snag, data: UpdateData, now: Time): (r: UpdateData)
    requires WellTyped(data)
    ensures WellTyped(r)
    ensures r.Keys == if Raised(data, ContractorCompleted) then data.Keys + {WorkCompletedDate} + (if snag.status == Open || snag.authorityApproved then {Status} else {}) else data.Keys
    ensures forall f :: f in data && f != WorkCompletedDate && f != Status ==> r[f] == data[f]
    ensures Raised(data, ContractorCompleted) ==> r[WorkCompletedDate] == Instant(now)
    ensures !Raised(data, ContractorCompleted) ==> r == data
    ensures Raised(data, ContractorCompleted) ==>
              StatusAfter(r, snag.status) ==
                if snag.authorityApproved then Resolved
                else if snag.status == Open then InProgress
                else StatusAfter(data, snag.status)
  {
    if !Raised(data, ContractorCompleted) then data
    else
      var d := data[ContractorCompleted := Flag(true)][WorkCompletedDate := Instant(now)];
      var d := if snag.status == Open then d[Status := State(InProgress)] else d;
      if snag.authorityApproved then d[Status := State(Resolved)] else d
  }

  /** The authority's approval rule: approval resolves a snag the contractor
      has completed, otherwise moves an open snag to in_progress; any other
      snag keeps the status sent, or its own. */
  function AuthorityMarks(snag: Snag, data: UpdateData): (r: UpdateData)
    requires WellTyped(data)
    ensures WellTyped(r)
    ensures r.Keys == if Raised(data, AuthorityApproved) && (snag.contractorCompleted || snag.status == Open) then data.Keys + {Status} else data.Keys
    ensures forall f :: f in data && f != Status ==> r[f] == data[f]
    ensures !Raised(data, AuthorityApproved) ==> r == data
    ensures Raised(data, AuthorityApproved) ==>
              StatusAfter(r, snag.status) ==
                if snag.contractorCompleted then Resolved
                else if snag.status == Open then InProgress
                else StatusAfter(data, snag.status)
  {
    if !Raised(data, AuthorityApproved) then data
    else
      var d := data[AuthorityApproved := Flag(true)];
      if snag.contractorCompleted then d[Status := State(Resolved)]
      else if snag.status == Open then d[Status := State(InProgress)]
      else d
  }

  /** A manager's or inspector's approval resolves a completed snag; nothing
      else is derived for them. */
  function StaffMarks(snag: Snag, data: UpdateData): (r: UpdateData)
    requires WellTyped(data)
    ensures WellTyped(r)
    ensures r.Keys == if Raised(data, AuthorityApproved) && snag.contractorCompleted then data.Keys + {Status} else data.Keys
    ensures forall f :: f in data && f != Status ==> r[f] == data[f]
    ensures !(Raised(data, AuthorityApproved) && snag.contractorCompleted) ==> r == data
    ensures Raised(data, AuthorityApproved) && snag.contractorCompleted ==> StatusAfter(r, snag.status) == Resolved
  {
    if !Raised(data, AuthorityApproved) then data
    else
      var d := data[AuthorityApproved := Flag(true)];
      if snag.contractorCompleted then d[Status := State(Resolved)] else d
  }

  /** An accepted update: what is written with `$set`, and the resulting status. */
  datatype Accepted = Accepted(data: UpdateData, newStatus: SnagStatus)

  /** The gate and derivation of `update_snag` for a snag that exists. */
  function Gate(caller: Caller, snag: Snag, req: Request, now: Time): (r: Result<Accepted, HttpError>)
    requires WellFormed(req)
    // rejections, per role
    ensures caller.role == Contractor ==>
              (r.Err? <==> snag.assignedContractor != Some(caller.id) || !(Provided(req) <= ContractorFields))
    ensures caller.role == Contractor && snag.assignedContractor != Some(caller.id) ==> r == Err(NotAssigned)
    ensures caller.role == Contractor && snag.assignedContractor == Some(caller.id) && !(Provided(req) <= ContractorFields) ==>
              r == Err(ContractorFieldsOnly)
    ensures caller.role == Authority ==> (r.Err? <==> !(Provided(req) <= AuthorityFields))
    ensures caller.role == Authority && r.Err? ==> r == Err(AuthorityFieldsOnly)
    ensures caller.role == Manager || caller.role == Inspector ==> r.Ok?
    // an accepted update is well typed and stamps updated_at
    ensures r.Ok? ==> WellTyped(r.value.data) && UpdatedAt in r.value.data && r.value.data[UpdatedAt] == Instant(now)
    // the resulting status is the derived or sent one, otherwise the old one
    ensures r.Ok? ==> r.value.newStatus == StatusAfter(r.value.data, snag.status)
    // what is written, per role: the stamped request under that role's rule
    ensures caller.role == Contractor && r.Ok? ==>
              r.value.data == ContractorMarks(snag, Present(req)[UpdatedAt := Instant(now)], now)
    ensures caller.role == Authority && r.Ok? ==>
              r.value.data == AuthorityMarks(snag, Present(req)[UpdatedAt := Instant(now)])
    ensures caller.role == Manager || caller.role == Inspector ==>
              r.value.data == StaffMarks(snag, Present(req)[UpdatedAt := Instant(now)])
    // the resulting status, per role
    ensures caller.role == Contractor && r.Ok? ==>
              r.value.newStatus ==
                if !Raised(Present(req), ContractorCompleted) then snag.status
                else if snag.authorityApproved then Resolved
                else if snag.status == Open then InProgress
                else snag.status
    ensures caller.role == Authority && r.Ok? ==>
              r.value.newStatus ==
                if Raised(Present(req), AuthorityApproved) && snag.contractorCompleted then Resolved
                else if Raised(Present(req), AuthorityApproved) && snag.status == Open then InProgress
                else StatusAfter(Present(req), snag.status)
    ensures caller.role == Manager || caller.role == Inspector ==>
              r.value.newStatus ==
                if Raised(Present(req), AuthorityApproved) && snag.contractorCompleted then Resolved
                else StatusAfter(Present(req), snag.status)
  {
    var data := Present(req)[UpdatedAt := Instant(now)];
    match caller.role
    case Contractor =>
      if snag.assignedContractor != Some(caller.id) then Err(NotAssigned)
      else if !(Provided(req) <= ContractorFields) then Err(ContractorFieldsOnly)
      else
        var d := ContractorMarks(snag, data, now);
        Ok(Accepted(d, StatusAfter(d, snag.status)))
    case Authority =>
      if !(Provided(req) <= AuthorityFields) then Err(AuthorityFieldsOnly)
      else
        var d := AuthorityMarks(snag, data);
        Ok(Accepted(d, StatusAfter(d, snag.status)))
    case _ =>
      var d := StaffMarks(snag, data);
      Ok(Accepted(d, StatusAfter(d, snag.status)))
  }

  /** An accepted update keeps every sent value, drops the None ones, and
      derives nothing but updated_at, the status and the completion date. */
  lemma GateWritesOnlyRequested(caller: Caller, snag: Snag, req: Request, now: Time)
    requires WellFormed(req)
    requires Gate(caller, snag, req, now).Ok?
    ensures var data := Gate(caller, snag, req, now).value.data;
            && (forall f :: f in data ==> f in Provided(req) || f in {UpdatedAt, Status, WorkCompletedDate})
            && (forall f :: f in Provided(req) ==>
                  f in data && (f != Status && f != WorkCompletedDate ==> req[f] == Some(data[f])))
  {
  }

  /** The completion and approval flags of an accepted update are raised
      exactly when the request sent them as true: no role has them derived. */
  lemma FlagsFollowRequest(caller: Caller, snag: Snag, req: Request, now: Time)
    requires WellFormed(req)
    requires Gate(caller, snag, req, now).Ok?
    ensures var data := Gate(caller, snag, req, now).value.data;
            && (Raised(data, ContractorCompleted) <==> ContractorCompleted in req && req[ContractorCompleted] == Some(Flag(true)))
            && (Raised(data, AuthorityApproved) <==> AuthorityApproved in req && req[AuthorityApproved] == Some(Flag(true)))
  {
    GateWritesOnlyRequested(caller, snag, req, now);
    var data := Gate(caller, snag, req, now).value.data;
    assert ContractorCompleted in Provided(req) <==> ContractorCompleted in req && req[ContractorCompleted].Some?;
    assert AuthorityApproved in Provided(req) <==> AuthorityApproved in req && req[AuthorityApproved].Some?;
  }

  /** A request that was accepted is accepted again when it is sent a second
      time, to the snag it produced. */
  lemma ResendIsAccepted(caller: Caller, snag: Snag, req: Request, now: Time, later: Time)
    requires WellFormed(req)
    requires Gate(caller, snag, req, now).Ok?
    ensures Gate(caller, Apply(snag, Gate(caller, snag, req, now).value.data), req, later).Ok?
  {
    GateWritesOnlyRequested(caller, snag, req, now);
    var data := Gate(caller, snag, req, now).value.data;
    if caller.role == Contractor {
      assert AssignedContractorId !in data;
    }
  }

  /** Applying the contractor's completion rule a second time, with the same
      flag, to the snag the first application produced leaves its status alone. */
  lemma CompletionTwiceKeepsStatus(snag: Snag, first: UpdateData, second: UpdateData, now: Time, later: Time)
    requires WellTyped(first) && WellTyped(second)
    requires Status !in first && Status !in second && AuthorityApproved !in first
    requires Raised(first, ContractorCompleted) == Raised(second, ContractorCompleted)
    ensures var again := Apply(snag, ContractorMarks(snag, first, now));
            StatusAfter(ContractorMarks(again, second, later), again.status) == again.status
  {
    var again := Apply(snag, ContractorMarks(snag, first, now));
    assert again.authorityApproved == snag.authorityApproved;
    if Raised(second, ContractorCompleted) && !snag.authorityApproved {
      assert again.status != Open;
    }
  }

  /** What the gate writes for the assigned contractor: the request, stamped,
      under the completion rule. */
  lemma ContractorGateData(caller: Caller, snag: Snag, req: Request, now: Time)
    requires WellFormed(req) && caller.role == Contractor
    requires Gate(caller, snag, req, now).Ok?
    ensures var first := Present(req)[UpdatedAt := Instant(now)];
            && Status !in first && AuthorityApproved !in first
            && Gate(caller, snag, req, now).value.data == ContractorMarks(snag, first, now)
  {
  }

  /** A contractor's request sent a second time leaves the status where the
      first one put it. */
  lemma ContractorResendKeepsStatus(caller: Caller, snag: Snag, req: Request, now: Time, later: Time)
    requires WellFormed(req) && caller.role == Contractor
    requires Gate(caller, snag, req, now).Ok?
    ensures var again := Apply(snag, Gate(caller, snag, req, now).value.data);
            && Gate(caller, again, req, later).Ok?
            && Gate(caller, again, req, later).value.newStatus == again.status
  {
    ResendIsAccepted(caller, snag, req, now, later);
    ContractorGateData(caller, snag, req, now);
    var again := Apply(snag, Gate(caller, snag, req, now).value.data);
    ContractorGateData(caller, again, req, later);
    CompletionTwiceKeepsStatus(snag, Present(req)[UpdatedAt := Instant(now)], Present(req)[UpdatedAt := Instant(later)], now, later);
  }

  /** The status a request sends, if any. */
  function SentStatus(req: Request): Option<SnagStatus>
    requires WellFormed(req)
  {
    if Status in req && req[Status].Some? then Some(req[Status].value.status) else None
  }

  /** The code never derives `verified`: an update ends in `verified` only when
      the snag already was, or a caller other than a contractor sent it. */
  lemma NeverDerivesVerified(caller: Caller, snag: Snag, req: Request, now: Time)
    requires WellFormed(req)
    requires Gate(caller, snag, req, now).Ok?
    requires Gate(caller, snag, req, now).value.newStatus == Verified
    ensures snag.status == Verified || (SentStatus(req) == Some(Verified) && caller.role != Contractor)
  {
    var a := Gate(caller, snag, req, now).value;
    var data := Present(req)[UpdatedAt := Instant(now)];
    if Status in a.data && a.data[Status] != State(Verified) {
    } else if Status in a.data {
      assert Status in data && data[Status] == State(Verified);
    }
  }

  /** Position of a status along open, in_progress, resolved, verified. */
  function Rank(s: SnagStatus): nat {
    match s
    case Open => 0
    case InProgress => 1
    case Resolved => 2
    case Verified => 3
  }

  /** A contractor never moves a snag backwards in the workflow, except that
      completing a verified snag the authority had approved makes it resolved. */
  lemma ContractorMovesForward(caller: Caller, snag: Snag, req: Request, now: Time)
    requires WellFormed(req) && caller.role == Contractor
    requires Gate(caller, snag, req, now).Ok?
    ensures var s := Gate(caller, snag, req, now).value.newStatus;
            Rank(s) >= Rank(snag.status) || (snag.status == Verified && snag.authorityApproved && s == Resolved)
  {
    var data := Present(req)[UpdatedAt := Instant(now)];
    assert Status !in data;
  }

  /** The text written to a field, or `current` when the field is not written. */
  function TextOr(data: UpdateData, f: Field, current: string): string {
    if f in data && data[f].Text? then data[f].text else current
  }

  /** The flag written to a field, or `current` when the field is not written. */
  function FlagOr(data: UpdateData, f: Field, current: bool): bool {
    if f in data && data[f].Flag? then data[f].flag else current
  }

  /** The stored snag after `$set` of an accepted update. Fields the model
      does not keep (texts, photos, dates) are not written. Each kept field
      takes the value written to it, and keeps its old value otherwise. */
  function Apply(s: Snag, data: UpdateData): (t: Snag)
    // never written by an update
    ensures t.id == s.id && t.queryNo == s.queryNo && t.createdBy == s.createdBy
    ensures t.status == StatusAfter(data, s.status)
    ensures ProjectName !in data ==> t.project == s.project
    ensures ProjectName in data && data[ProjectName].Text? ==> t.project == data[ProjectName].text
    ensures Location !in data ==> t.location == s.location
    ensures Location in data && data[Location].Text? ==> t.location == data[Location].text
    ensures Priority !in data ==> t.priority == s.priority
    ensures Priority in data && data[Priority].Text? ==> t.priority == data[Priority].text
    ensures AssignedContractorId !in data ==> t.assignedContractor == s.assignedContractor
    ensures AssignedContractorId in data && data[AssignedContractorId].Text? ==>
              t.assignedContractor == Some(data[AssignedContractorId].text)
    ensures AssignedAuthorityId !in data ==> t.authorityId == s.authorityId
    ensures AssignedAuthorityId in data && data[AssignedAuthorityId].Text? ==>
              t.authorityId == Some(data[AssignedAuthorityId].text)
    ensures AssignedAuthorityIds !in data ==> t.authorityIds == s.authorityIds
    ensures AssignedAuthorityIds in data && data[AssignedAuthorityIds].Ids? ==>
              t.authorityIds == data[AssignedAuthorityIds].ids
    // a flag takes the value sent, false included
    ensures ContractorCompleted !in data ==> t.contractorCompleted == s.contractorCompleted
    ensures ContractorCompleted in data && data[ContractorCompleted].Flag? ==>
              t.contractorCompleted == data[ContractorCompleted].flag
    ensures AuthorityApproved !in data ==> t.authorityApproved == s.authorityApproved
    ensures AuthorityApproved in data && data[AuthorityApproved].Flag? ==>
              t.authorityApproved == data[AuthorityApproved].flag
  {
    s.(
      project := TextOr(data, ProjectName, s.project),
      location := TextOr(data, Location, s.location),
      priority := TextOr(data, Priority, s.priority),
      status := StatusAfter(data, s.status),
      assignedContractor :=
        if AssignedContractorId in data && data[AssignedContractorId].Text?
        then Some(data[AssignedContractorId].text) else s.assignedContractor,
      authorityId :=
        if AssignedAuthorityId in data && data[AssignedAuthorityId].Text?
        then Some(data[AssignedAuthorityId].text) else s.authorityId,
      authorityIds :=
        if AssignedAuthorityIds in data && data[AssignedAuthorityIds].Ids?
        then data[AssignedAuthorityIds].ids else s.authorityIds,
      contractorCompleted := FlagOr(data, ContractorCompleted, s.contractorCompleted),
      authorityApproved := FlagOr(data, AuthorityApproved, s.authorityApproved))
  }
}
