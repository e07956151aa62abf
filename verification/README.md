# Snag tracker server: a Dafny model

This project models the core of the snag tracker's API server
(`backend/server.py`). A *snag* is a construction defect in a building
(the `project_name`). It carries:

- a per-building query number;
- a status (open, in_progress, resolved, verified);
- an assigned contractor;
- a list of assigned authorities, plus a legacy single authority id;
- the contractor's completion flag and the authority's approval flag.

Managers and inspectors create snags. Contractors mark them complete.
Authorities approve them. Each step notifies the people involved, and a
WebSocket connection manager pushes updates to open browser sessions.

Modules:

- `SnagTypes` (`snag_types.dfy`): roles, statuses, the stored snag, the
  HTTP errors, lookup by id, and Python truthiness of an optional string.
- `QueryNumbers` (`query_numbers.dfy`): `get_next_query_no`, and the
  invariant that numbers rise within each building.
- `AuthorityAssignment` (`authority_assignment.dfy`): merging the authority
  fields when a snag is created, inheriting the building's previous
  assignment, and the read-side normalisation.
- `Access` (`access.dfy`): `require_role`, and the role-based query of
  `get_snags`.
- `UpdateGate` (`update_gate.dfy`): the role gate and the status rules of
  `update_snag`, and how the `$set` changes a snag.
- `Notifications` (`notifications.dfy`): who is told about a create and
  about an update.
- `Endpoints` (`endpoints.dfy`): the database as an object whose snag and
  notification collections `create_snag`, `update_snag` and `delete_snag`
  change in place.
- `Connections` (`connections.dfy`): the `ConnectionManager` class.
- `Export` (`export.dfy`): the role check and selection of the Excel and
  PDF exports, their grouping by building, and the Excel sheet titles.
- `ProjectNames` (`project_names.dfy`): `get_project_names`.

The snag collection is a sequence in creation order, so "sorted by
`created_at` descending" is the reverse order. An update request is a map
from the `SnagUpdate` field names to the optional values that were sent
(`exclude_unset`). The wall clock is a `now` parameter. Whether a WebSocket
send succeeds is given as the set of sockets that are still alive.

Behaviours of the code worth knowing:

- Query numbers are not permanent. Deleting a building's highest-numbered
  snag hands its number to the next snag created there
  (`QueryNumbers.DeletingTopAllowsReuse`, `Endpoints.DeletedNumberIsReused`).
- A manager who changes a snag's building keeps its number, which may
  already be in use there (`Endpoints.RenameCanDuplicateNumber`).
- Every completion request stamps `work_completed_date` again, not only
  the first one (`UpdateGate.ContractorMarks`).
- An authority may send any status, `verified` included. Completing a
  snag the authority had approved makes it `resolved`, even when it was
  `verified` (`UpdateGate.NeverDerivesVerified`,
  `UpdateGate.ContractorMovesForward`).

## Model

| member | source | states |
|---|---|---|
| SnagTypes.Find | backend/server.py:770-772 | The index found holds the requested id, and None means no snag has that id. |
| SnagTypes.FirstOrNone | backend/server.py:506 | The first element of a non-empty list; None for the empty list. |
| QueryNumbers.LastQueryNo | backend/server.py:266-269 | None exactly when the building has no snag; otherwise the number belongs to a snag of that building and is the largest there. |
| QueryNumbers.NextQueryNo | backend/server.py:264-270 | 1 for a building with no snags. Otherwise one more than a number the building uses, and above all of them. |
| QueryNumbers.AppendKeepsNumbered | backend/server.py:477 | Adding a snag numbered by `get_next_query_no` keeps numbers positive and strictly rising within every building. |
| QueryNumbers.RemoveKeepsNumbered | backend/server.py:936 | Deleting any snag keeps the numbering invariant. |
| QueryNumbers.OtherBuildingUnaffected | backend/server.py:266-268 | A new snag in one building leaves every other building's next number unchanged. |
| QueryNumbers.DeletingTopAllowsReuse | backend/server.py:264-270 | After the snag with a building's highest number is deleted, the next number there is at most the deleted one, so it can be handed out again. |
| AuthorityAssignment.PreviousAssignment | backend/server.py:489-498 | The newest snag of the building that has a non-empty authority list or a legacy id; None when there is no such snag. |
| AuthorityAssignment.Inherited | backend/server.py:499-503 | Defines what the building's previous snag passes on: its list when non-empty, else its truthy legacy id, else nothing. Its use is stated by `AssignAuthorities`. |
| AuthorityAssignment.AssignAuthorities | backend/server.py:481-503 | A request that names authorities keeps its list in order. A truthy legacy id missing from the list is appended once; the length grows by exactly that one. Nothing else is added, and a falsy legacy id never is. Without duplicates in the request there are none in the result. Only an empty request inherits the previous snag's list, or its legacy id. |
| AuthorityAssignment.ReadAuthorities | backend/server.py:667-683 | A truthy legacy id missing from the stored list is put in front, and is then the reported single id. Otherwise the list is reported as stored. No duplicate is created. The reported single id is the head of the list, or the stored legacy value when the list is empty. |
| AuthorityAssignment.ReadIsIdempotent | backend/server.py:667-683 | Normalising a normalised view changes nothing. |
| AuthorityAssignment.ReadAfterCreateIsIdentity | backend/server.py:506-521 | What `create_snag` stores is read back unchanged. |
| Access.RequireRole | backend/server.py:247-252 | The caller passes exactly when their role is allowed; otherwise the answer is 403 "Not enough permissions". |
| Access.RoleAllows | backend/server.py:634-643 | Defines the role part of the query: a contractor's own snags; for an authority, snags naming them in the legacy field or the list; every snag for managers and inspectors. |
| Access.MatchesAsWritten | backend/server.py:634-654 | Defines the query as built: a sent `assigned_contractor_id` replaces the contractor's own restriction. Shown by `Access.ContractorFilterLeaks`. |
| Access.Matches | backend/server.py:634-654 | Defines the intended query: the role restriction and every truthy parameter together. Its use is stated by `Access.ContractorSeesOnlyOwn`. |
| Access.NewestFirst | backend/server.py:656 | Lists exactly the stored snags that satisfy the query, and no more than are stored. |
| Access.NewestFirstIsReversedFilter | backend/server.py:656 | The listing is the matching snags in reverse creation order, that is by `created_at` descending. |
| Access.NewestFirstCounts | backend/server.py:656 | Each matching snag is listed as often as it is stored, and a non-matching one never is. |
| Access.Capped | backend/server.py:656 | Exactly the first min(n, 1000) entries of the sorted list: a prefix of it, of that length. |
| Access.Listed | backend/server.py:656 | Defines all snags the intended query matches, newest first, before the cap. Its contents and order follow from `NewestFirst` and its lemmas. |
| Access.ListedAsWritten | backend/server.py:656 | Defines all snags the query as built matches, newest first, before the cap. |
| Access.ListSnags | backend/server.py:634-656 | The intended listing is the prefix of all matching snags newest first whose length is min(n, 1000), so exactly the 1000 newest are kept when more match. When at most 1000 match, all of them are listed. Every listed snag is stored and satisfies both the role restriction and the parameters. |
| Access.ListSnagsAsWritten | backend/server.py:634-656 | The listing as the query is built: the same prefix of length min(n, 1000) and the same completeness, for the query in which a contractor's own restriction can be replaced. |
| Access.ListIsCompleteUnderLimit | backend/server.py:656 | When at most 1000 snags match, every matching snag is listed. |
| Access.ContractorSeesOnlyOwn | backend/server.py:635-636 | Under the intended query, a contractor sees only snags assigned to them, whatever parameters they send. |
| Access.AuthoritySeesOnlyAssigned | backend/server.py:637-643 | An authority sees only snags whose normalised authority list contains them. |
| Access.ContractorFilterLeaks | backend/server.py:653-654 | As written, contractor c1 who passes `assigned_contractor_id=c2` is shown c2's snag. The intended query hides it. |
| UpdateGate.Present | backend/server.py:775 | The update keeps exactly the fields that were sent with a non-None value, and their values. |
| UpdateGate.StatusAfter | backend/server.py:828-829 | Defines the resulting status: the one in `update_data` when present, else the old one. It is used by the contracts of `Gate` and `Apply`. |
| UpdateGate.ContractorMarks | backend/server.py:790-798 | A raised completion flag stamps the completion date with the current time, each time. The status becomes resolved when the authority had approved, in_progress when the snag was open, and otherwise stays. No flag means no change. |
| UpdateGate.AuthorityMarks | backend/server.py:807-816 | An approval resolves a completed snag and moves an open one to in_progress. Otherwise the sent status, or the old one, stands. |
| UpdateGate.StaffMarks | backend/server.py:822-826 | A manager's or inspector's approval resolves a completed snag. Nothing else is derived. |
| UpdateGate.Gate | backend/server.py:775-829 | A contractor not assigned to the snag gets 403 "Not assigned". A contractor sending a field outside the completion fields gets 403. An authority sending a field outside approval, feedback, comment and status gets 403. Managers and inspectors are always accepted. An accepted update is the stamped request under the caller's rule: `ContractorMarks` for the contractor, `AuthorityMarks` for an authority, `StaffMarks` for managers and inspectors. The resulting status is as follows. A contractor's completion gives resolved after an approval, in_progress from open, and otherwise leaves the status. An approval gives resolved when the contractor had completed. An authority's approval of an open snag gives in_progress. Otherwise the sent status stands, else the old one. |
| UpdateGate.GateWritesOnlyRequested | backend/server.py:775-776 | Every sent value is written unchanged, except status and completion date. Nothing beyond `updated_at`, status and completion date is added. |
| UpdateGate.FlagsFollowRequest | backend/server.py:790-826 | The completion and approval flags are raised in what is written exactly when the request sent them as true. |
| UpdateGate.ResendIsAccepted | backend/server.py:779-826 | A request accepted once is accepted again for the snag it produced. |
| UpdateGate.CompletionTwiceKeepsStatus | backend/server.py:790-798 | The completion rule applied a second time does not move the status. |
| UpdateGate.ContractorResendKeepsStatus | backend/server.py:779-829 | A contractor's request sent twice leaves the status where the first one put it. |
| UpdateGate.NeverDerivesVerified | backend/server.py:779-829 | An update ends in `verified` only if the snag already was, or if a non-contractor sent `verified`. |
| UpdateGate.ContractorMovesForward | backend/server.py:790-798 | A contractor never moves a snag back in the workflow. The one exception is completing an approved, verified snag, which becomes resolved. |
| UpdateGate.Apply | backend/server.py:828-834 | Id, number and creator never change, and the status becomes the resulting status. Building, location, priority, contractor, legacy authority id, authority list and both flags each take the value written, a flag set to false included. Each keeps its old value when not written. |
| Notifications.AddAuthoritiesSpec | backend/server.py:555-567 | The authority loop keeps earlier notices and notifies exactly the listed authorities not yet notified. Nobody is notified twice. |
| Notifications.AddAuthorities | backend/server.py:555-567 | Defines the authority loop: each listed authority not yet a recipient gets one notice, in list order. Stated by `AddAuthoritiesSpec`. |
| Notifications.CreateNotices | backend/server.py:540-567 | Defines the create notices: the truthy contractor first, then the authority loop. Stated by `CreateNoticesSpec`. |
| Notifications.CreateNoticesSpec | backend/server.py:540-567 | On create, the contractor is notified first and then each assigned authority, one notice per person. |
| Notifications.PlanCreateNotifications | backend/server.py:540-567 | The recipient loop sends the notices of `CreateNoticesSpec`, without duplicates, to exactly the contractor and the authorities. |
| Notifications.Staff | backend/server.py:842 | Exactly the first min(n, 100) of the n authority and manager users, in user order. Every id is an authority's or a manager's, and all of them are included when there are no more than 100. |
| Notifications.StaffAll | backend/server.py:842 | The users told about a completion are exactly the authorities and managers. |
| Notifications.CompletionNotices | backend/server.py:840-849 | Completion notices go out only when the flag goes from false to true, and then exactly one to each staff entry, in the staff order. |
| Notifications.ApprovalNotices | backend/server.py:852-865 | Approval notices go out only when the flag goes from false to true. They go to the creator, and to the contractor when a truthy one is assigned; nobody else is told. There is one notice each, the creator's last. |
| Notifications.ResolvedNotices | backend/server.py:868-880 | Only on a change into resolved. The creator's notice is suppressed when the completion group was just notified. The contractor's notice is sent only when a contractor is assigned, and is suppressed when the approval group was just notified. At most one notice of each kind is sent. |
| Notifications.UpdateNotices | backend/server.py:837-880 | All notices of an update, with the three rules above, the contractor's approval notice included. No create notice is among them, and there are none when no edge fired. |
| Notifications.PlanUpdateNotifications | backend/server.py:837-880 | The steps that build the `notifications_sent` markers send exactly `UpdateNotices`. |
| Notifications.ResendRaisesNoFlagNotices | backend/server.py:840-852 | An accepted request sent again raises no completion or approval notice. |
| Notifications.ContractorResendIsSilent | backend/server.py:779-880 | A contractor's repeated request keeps the status and raises no notice at all. |
| Endpoints.NewSnag | backend/server.py:477-534 | A new snag takes the building's next number and starts open with both flags false. Its authority list is the merged request, or else the building's newest assignment, and its legacy id is the head of that list. Building, location, priority and contractor are those requested, and the caller is the creator. |
| Endpoints.SnagDatabase.CreateSnag | backend/server.py:472-567 | 403 unless the caller is a manager or inspector. Otherwise the new snag is appended and the create notices are added. Ids stay distinct, and a numbered store stays numbered. |
| Endpoints.SnagDatabase.UpdateSnag | backend/server.py:764-880 | 404 for an unknown id. Otherwise the gate's error is returned, or the snag is replaced by the `$set` result and the update notices to the first 100 staff users are added. Ids stay distinct. A numbered store stays numbered unless the building was changed. |
| Endpoints.SnagDatabase.DeleteSnag | backend/server.py:928-943 | 403 for non-managers and 404 for an unknown id. Otherwise exactly that snag is removed. Ids stay distinct, and a numbered store stays numbered. |
| Endpoints.KeepingBuildingKeepsNumbered | backend/server.py:831-834 | Replacing a snag by one with the same building and number keeps the numbering. |
| Endpoints.RemoveKeepsUnique | backend/server.py:936 | Deleting a snag keeps the other ids distinct and removes its id. |
| Endpoints.RenameCanDuplicateNumber | backend/server.py:818-834 | Two numbered snags in different buildings: moving one into the other's building breaks the numbering. |
| Endpoints.DeletedNumberIsReused | backend/server.py:936-938 | Deleting snag #2 of a building makes the next snag there #2 again. |
| Connections.RemoveFirst | backend/server.py:56-59 | `list.remove`: a missing socket leaves the list as it is; otherwise the list gets one shorter. |
| Connections.RemoveFirstTakesOne | backend/server.py:72-73 | Exactly one occurrence of the socket is taken out, and nothing else. |
| Connections.SecondRemoveIsNoop | backend/server.py:57-59 | Disconnecting a socket that is listed at most once a second time changes nothing. |
| Connections.RemoveEach | backend/server.py:72-73 | Defines the removal loop on values: each collected socket removed once, in order. Stated by `RemovingDroppedLeavesSurviving` and proved against `RemoveAll`. |
| Connections.Surviving | backend/server.py:63-73 | Defines the list after a broadcast: the live sockets, in list order. Stated by `SurvivingMembers` and `SurvivingIsIdempotent`. |
| Connections.Dropped | backend/server.py:66-71 | Defines the `disconnected` list: the dead sockets, in list order. Stated by `DroppedAreDead`. |
| Connections.SurvivingMembers | backend/server.py:63-73 | After a broadcast the list holds exactly the sockets that were listed and are alive. |
| Connections.DroppedAreDead | backend/server.py:66-71 | The failed sockets collected are exactly the listed sockets that are dead. |
| Connections.RemovingDroppedLeavesSurviving | backend/server.py:72-73 | Removing the failed sockets one by one leaves the live ones in their order. |
| Connections.SurvivingIsIdempotent | backend/server.py:63-73 | A second broadcast to the same live set removes nothing more. |
| Connections.CollectFailed | backend/server.py:66-71 | The send loop collects the failed sockets in list order. |
| Connections.RemoveAll | backend/server.py:72-73 | For collected sockets that are all in the list, counted with multiplicity, the removal loop takes out each of them once. |
| Connections.ConnectionManager.constructor | backend/server.py:44-46 | No connections and no users. |
| Connections.ConnectionManager.Connect | backend/server.py:48-54 | The socket is appended to the broadcast list, and a truthy user id is pointed at it. |
| Connections.ConnectionManager.Authenticate | backend/server.py:1330-1332 | A truthy user id from the token is pointed at this socket. The broadcast list is unchanged. |
| Connections.ConnectionManager.Disconnect | backend/server.py:56-61 | As written: one occurrence of the socket leaves the list, and the user's entry is deleted whichever socket it points at. |
| Connections.ConnectionManager.Release | backend/server.py:56-61 | Corrected: one occurrence of the socket leaves the list. The user's entry is deleted exactly when it points at the closing socket. The rest of the map, including other users on the same socket, is unchanged, and so is the whole map when the condition fails. |
| Connections.ConnectionManager.Broadcast | backend/server.py:63-73 | The broadcast list becomes exactly its live sockets, in order; the user map is unchanged. |
| Connections.ConnectionManager.SendToUser | backend/server.py:75-81 | Delivered exactly when the user has a live socket. A failed send deletes the user's entry, and nothing else changes. |
| Connections.TwoTabs | backend/server.py:56-61 | Two tabs of one user, with the first closed. As written the user is unreachable although tab 2 is open; with `Release` the user still maps to tab 2. |
| ProjectNames.InsertKeepsSorted | backend/server.py:1283 | Inserting a name keeps the list ascending without repeats, and adds exactly that name. |
| ProjectNames.Names | backend/server.py:1282-1283 | Defines the result of `get_project_names`: the distinct truthy names, sorted. Stated by `NamesSortedAndComplete`. |
| ProjectNames.NamesSortedAndComplete | backend/server.py:1282-1283 | The names are in ascending code-point order, and they are exactly the non-empty buildings of stored snags. |
| ProjectNames.NamesAreDistinct | backend/server.py:1282 | No name is listed twice. |
| Export.Selected | backend/server.py:992-996 | Defines the export query: the sent status, and the building when a truthy one is sent. Stated by `ExportRows`; used by `OneBuildingOneSection`. |
| Export.SelectedRows | backend/server.py:998 | Exactly the stored snags the export query selects, and no more than are stored. |
| Export.ExportRows | backend/server.py:986-998 | 403 "Not enough permissions" exactly when the caller is neither a manager nor an authority. Otherwise the rows are exactly the stored snags the filter selects. |
| Export.BuildingsAreTheProjects | backend/server.py:1000-1006 | The group keys are the buildings of the selected snags, each exactly once. |
| Export.Buildings | backend/server.py:1000-1006 | Defines the keys of `snags_by_project` in insertion order. Stated by `BuildingsAreTheProjects`. |
| Export.Rows | backend/server.py:1000-1006 | Defines one building's group, in input order. Stated by `RowsAreTheBuilding`. |
| Export.RowsAreTheBuilding | backend/server.py:1000-1006 | A building's group holds exactly its selected snags, and is empty exactly when there are none. |
| Export.GroupingKeepsSortedOrder | backend/server.py:998-1006 | For input sorted by building, the groups read in key order are the input itself: no row lost, none moved. |
| Export.GroupByBuilding | backend/server.py:1000-1006 | The grouping loop yields the keys in order of first appearance, and for each key that building's rows in input order. |
| Export.OneBuildingOneSection | backend/server.py:995-1006 | An export filtered by a building has one section, or none when nothing matched. |
| Export.SheetTitle | backend/server.py:1015-1017 | A sheet title has at most 31 characters and is a prefix of the building name. A name that fits is kept whole. |
| Export.SheetTitlesCanCollide | backend/server.py:1015-1017 | Two buildings whose names agree in their first 31 characters are given the same truncated title. |

## Left out

- MongoDB, HTTP and WebSocket I/O. Collections are sequences, and a failed send is a socket missing from the `alive` set.
- The receive loop of the WebSocket endpoint, ping/pong, and JWT decoding. Authentication is modelled by `Connections.ConnectionManager.Authenticate`, from the user id the token yields.
- `broadcast_notification` and `broadcast_snag_update` (pushes to open sessions after each change). The handlers do not read anything back from them.
- Password hashing, login, registration, token issuing and the user, notification-read and dashboard endpoints. They are outside the snag workflow modelled here.
- The `$regex` filters of `get_snags` on location and building name. Regular-expression matching is not modelled.
- The name lookups that decorate responses (contractor and authority names).
- The message texts of notifications. A notice records its recipient and its kind (`Notifications.NoticeKind`).
- Description, solution, coordinates, photos, cost estimate (a float), due date and the feedback/comment texts. They are carried through untouched and decide nothing; `UpdateGate.Apply` does not store them.
- Timestamps other than the completion date. `created_at` is the position in the sequence, and `updated_at` is stamped in the update data only.
- Both clock reads in `update_snag` (`updated_at`, `work_completed_date`) are one `now`.
- Stored documents that lack a field are not modelled; every snag has a building. The "Uncategorized" default of the exports and the missing-field defaults of `get_snags` therefore do not arise.
- A missing `"all"` key of `active_connections` is modelled as an empty list. Only `connect` ever creates it, and no operation tells the two apart.
- Concurrency. Two requests that interleave between `get_next_query_no` and the insert can receive the same number; each handler is modelled as one atomic step.
- Export.GroupingKeepsSortedOrder: the database's sort by building and number is a precondition, not computed.
- ExportRows: returns the selection in creation order, not sorted by building and number; the sort is left to the database, as above.
- The 1000-row cap of the exports, and the rendering of Excel sheets and PDF tables.
- Export.SheetTitlesCanCollide: states only that the truncated strings agree; what the spreadsheet library does with a duplicate title is part of the rendering and is not modelled.
- Statuses outside the four known values. The API accepts any string, and the model admits only the enumeration.
- Connections.ConnectionManager.Disconnect: states the new list via `RemoveFirst`, not as a multiset count; `Connections.RemoveFirstTakesOne` states the count.
- The browser-side code is not part of this model.

## Findings

| source | as written | input that shows it | evidently intended | confidence | as-written member | corrected member |
|---|---|---|---|---|---|---|
| backend/server.py:653-654 | An `assigned_contractor_id` parameter overwrites the query key that restricted a contractor to their own snags. | Contractor c1 lists snags with `assigned_contractor_id=c2` and is shown c2's snag. | A contractor sees only snags assigned to them, whatever parameters they send. | high, not executed | Access.ContractorFilterLeaks | Access.ContractorSeesOnlyOwn |
| backend/server.py:60-61 | `disconnect` deletes the user's entry in `user_connections` even when it already points at a newer socket of the same user. | User u1 opens tab 1 and tab 2, both authenticated, then closes tab 1. u1 has no entry although tab 2 is open, so `send_to_user` no longer reaches u1. | Delete the entry only when it points at the closing socket. | medium, not executed | Connections.TwoTabs | Connections.ConnectionManager.Release |
