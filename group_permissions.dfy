/** A parent's decision on a group-permission request (functions/index.js:1937-2159):
    approving creates or approves the contact between the two users, and the request's
    status moves only along pending -> approved, pending -> rejected and
    rejected -> approved. */
module GroupPermissions {
  import opened Outcomes
  import opened JsValues
  import opened Records
  import opened Store
  import opened Queries
  import opened ContactRequests

  // ---------------------------------------------------------------------------
  // approveGroupPermission
  // ---------------------------------------------------------------------------

  /** What the callable receives; `contactName` is read but never used, so it is left
      out. `childId` and `contactId` are strings, "" standing for a missing one. */
  datatype ApproveCall = ApproveCall(auth: Option<string>, requestId: JsValue, childId: string, contactId: string)

  /** The result carries the `contactDocId` the callable returns (`null` is `None`). */
  datatype ApproveOutcome = ApproveOutcome(result: Result<Option<string>>, after: Snapshot)

  /** The contacts whose users include both parties: the query on `childId` filtered by
      `users.includes(contactId)`. */
  function ContactsJoining(contacts: map<string, Contact>, childId: string, contactId: string): set<string> {
    set k | k in contacts && childId in contacts[k].users && contactId in contacts[k].users
  }

  /** The contact `approveGroupPermission` adds when none exists. */
  function GroupContact(childId: string, contactId: string, uid: string, now: int): Contact {
    Contact(SortPair(childId, contactId), "", "", Approved, true, now, uid, "group_approval",
            [], true, None, None, None)
  }

  /** An existing contact, approved for the group. */
  function ApprovedForGroup(c: Contact): Contact {
    c.(status := Approved, approvedForGroup := true, autoApproved := true)
  }

  /** The permission request approved by `uid`; a re-approval clears the rejection. */
  function ApprovedRequest(p: PermissionRequest, uid: string, now: int): PermissionRequest {
    var q := p.(status := Approved, approvedAt := Some(now), approvedBy := Some(uid), updatedAt := Some(now));
    if p.status == Rejected then q.(rejectedAt := None, rejectedBy := None) else q
  }

  /** `approveGroupPermission`; `newId` is the id `add()` would generate. */
  ghost function Approve(s: Snapshot, call: ApproveCall, now: int, newId: string): ApproveOutcome {
    if call.auth.None? then ApproveOutcome(Err(Unauthenticated), s)
    else if !Truthy(call.requestId) || call.childId == "" || call.contactId == "" then
      ApproveOutcome(Err(InvalidArgument), s)
    else if !call.requestId.Str? then ApproveOutcome(Err(Internal), s)
    else if call.requestId.s !in s.permissionRequests then ApproveOutcome(Err(NotFound), s)
    else
      var uid := call.auth.value;
      var p := s.permissionRequests[call.requestId.s];
      if p.parentId != Some(uid) then ApproveOutcome(Err(PermissionDenied), s)
      else if p.status == Approved then
        ApproveOutcome(Ok(if p.contactDocId == "" then None else Some(p.contactDocId)), s)
      else
        var existing := ContactsJoining(s.contacts, call.childId, call.contactId);
        var contactDocId := if existing == {} then newId else FirstId(existing);
        var contact := if existing == {} then GroupContact(call.childId, call.contactId, uid, now)
                       else ApprovedForGroup(s.contacts[contactDocId]);
        ApproveOutcome(Ok(Some(contactDocId)),
          s.(contacts := s.contacts[contactDocId := contact],
             permissionRequests := s.permissionRequests[call.requestId.s := ApprovedRequest(p, uid, now)]))
  }

  method ApproveGroupPermission(db: Db, call: ApproveCall, now: int, newId: string) returns (r: Result<Option<string>>)
    modifies db`contacts, db`permissionRequests
    ensures Approve(old(db.Snap()), call, now, newId) == ApproveOutcome(r, db.Snap())
  {
    if call.auth.None? {
      return Err(Unauthenticated);
    }
    if !Truthy(call.requestId) || call.childId == "" || call.contactId == "" {
      return Err(InvalidArgument);
    }
    if !call.requestId.Str? {
      return Err(Internal);
    }
    var requestId := call.requestId.s;
    if requestId !in db.permissionRequests {
      return Err(NotFound);
    }
    var uid := call.auth.value;
    var permissionData := db.permissionRequests[requestId];
    if permissionData.parentId != Some(uid) {
      return Err(PermissionDenied);
    }
    if permissionData.status == Approved {
      return Ok(if permissionData.contactDocId == "" then None else Some(permissionData.contactDocId));
    }
    var existing := ContactsJoining(db.contacts, call.childId, call.contactId);
    var contactDocId;
    if existing == {} {
      contactDocId := newId;
      db.contacts := db.contacts[contactDocId := GroupContact(call.childId, call.contactId, uid, now)];
    } else {
      contactDocId := FindFirstId(existing);
      db.contacts := db.contacts[contactDocId := ApprovedForGroup(db.contacts[contactDocId])];
    }
    db.permissionRequests := db.permissionRequests[requestId := ApprovedRequest(permissionData, uid, now)];
    r := Ok(Some(contactDocId));
  }

  // ---------------------------------------------------------------------------
  // updateGroupPermissionStatus
  // ---------------------------------------------------------------------------

  datatype GroupStatusCall = GroupStatusCall(auth: Option<string>, requestId: JsValue, status: JsValue)

  datatype GroupStatusOutcome = GroupStatusOutcome(result: Result<Status>, after: Snapshot)

  /** The permission request after a decision, as step 4 writes it. */
  function DecidedPermission(p: PermissionRequest, decision: Status, uid: string, now: int): PermissionRequest {
    var q := p.(status := decision, updatedAt := Some(now), updatedBy := Some(uid));
    if decision == Approved then q.(rejectedAt := None, rejectedBy := None, approvedAt := Some(now))
    else q.(rejectedAt := Some(now), rejectedBy := Some(uid))
  }

  /** `updateGroupPermissionStatus`. */
  function UpdateGroupStatus(s: Snapshot, call: GroupStatusCall, now: int): GroupStatusOutcome {
    if call.auth.None? then GroupStatusOutcome(Err(Unauthenticated), s)
    else if !Truthy(call.requestId) || !Truthy(call.status) then GroupStatusOutcome(Err(InvalidArgument), s)
    else if ParseDecision(call.status).None? then GroupStatusOutcome(Err(InvalidArgument), s)
    else if !call.requestId.Str? then GroupStatusOutcome(Err(Internal), s)
    else if call.requestId.s !in s.permissionRequests then GroupStatusOutcome(Err(NotFound), s)
    else
      var uid := call.auth.value;
      var decision := ParseDecision(call.status).value;
      var p := s.permissionRequests[call.requestId.s];
      if p.parentId != Some(uid) then GroupStatusOutcome(Err(PermissionDenied), s)
      else if p.status == Approved && decision == Rejected then GroupStatusOutcome(Err(FailedPrecondition), s)
      else if p.status == decision then GroupStatusOutcome(Ok(decision), s)
      else
        GroupStatusOutcome(Ok(decision),
          s.(permissionRequests := s.permissionRequests[call.requestId.s := DecidedPermission(p, decision, uid, now)]))
  }

  method UpdateGroupPermissionStatus(db: Db, call: GroupStatusCall, now: int) returns (r: Result<Status>)
    modifies db`permissionRequests
    ensures UpdateGroupStatus(old(db.Snap()), call, now) == GroupStatusOutcome(r, db.Snap())
  {
    if call.auth.None? {
      return Err(Unauthenticated);
    }
    if !Truthy(call.requestId) || !Truthy(call.status) {
      return Err(InvalidArgument);
    }
    var decision := ParseDecision(call.status);
    if decision.None? {
      return Err(InvalidArgument);
    }
    if !call.requestId.Str? {
      return Err(Internal);
    }
    var requestId := call.requestId.s;
    if requestId !in db.permissionRequests {
      return Err(NotFound);
    }
    var uid := call.auth.value;
    var permissionData := db.permissionRequests[requestId];
    if permissionData.parentId != Some(uid) {
      return Err(PermissionDenied);
    }
    if permissionData.status == Approved && decision.value == Rejected {
      return Err(FailedPrecondition);
    }
    if permissionData.status == decision.value {
      return Ok(decision.value);
    }
    db.permissionRequests := db.permissionRequests[requestId := DecidedPermission(permissionData, decision.value, uid, now)];
    r := Ok(decision.value);
  }

  // ---------------------------------------------------------------------------
  // Properties
  // ---------------------------------------------------------------------------

  /** Which status changes a request may take. */
  predicate AllowedTransition(before: Status, after: Status) {
    before == after ||
    (before == Pending && after == Approved) ||
    (before == Pending && after == Rejected) ||
    (before == Rejected && after == Approved)
  }

  /** A decision only ever moves a permission request along an allowed transition; in
      particular an approved request stays approved. No request is created or removed. */
  lemma DecisionMovesOnlyForward(s: Snapshot, call: GroupStatusCall, now: int)
    ensures var t := UpdateGroupStatus(s, call, now).after.permissionRequests;
            && t.Keys == s.permissionRequests.Keys
            && forall k :: k in t ==> AllowedTransition(s.permissionRequests[k].status, t[k].status)
  {
    var o := UpdateGroupStatus(s, call, now);
    if o.after != s {
      var id := call.requestId.s;
      var p := s.permissionRequests[id];
      assert o.after.permissionRequests == s.permissionRequests[id := DecidedPermission(p, ParseDecision(call.status).value, call.auth.value, now)];
    }
  }

  /** An approval moves the request to approved from pending or rejected only. */
  lemma ApprovalMovesOnlyForward(s: Snapshot, call: ApproveCall, now: int, newId: string)
    ensures var t := Approve(s, call, now, newId).after.permissionRequests;
            && t.Keys == s.permissionRequests.Keys
            && forall k :: k in t ==> AllowedTransition(s.permissionRequests[k].status, t[k].status)
  {
    var o := Approve(s, call, now, newId);
    if o.after != s {
      var id := call.requestId.s;
      var p := s.permissionRequests[id];
      assert o.after.permissionRequests == s.permissionRequests[id := ApprovedRequest(p, call.auth.value, now)];
    }
  }

  /** Rejecting an approved request is refused and writes nothing; revoking access is a
      different operation. */
  lemma ApprovedCannotBeRejected(s: Snapshot, uid: string, id: string, now: int)
    requires id != "" && id in s.permissionRequests
    requires s.permissionRequests[id].parentId == Some(uid) && s.permissionRequests[id].status == Approved
    ensures UpdateGroupStatus(s, GroupStatusCall(Some(uid), Str(id), Str("rejected")), now) ==
              GroupStatusOutcome(Err(FailedPrecondition), s)
  {
    assert ParseDecision(Str("rejected")) == Some(Rejected);
  }

  /** Only the parent assigned to the request changes anything; every refusal, every
      repeated decision and every re-approval leaves the store as it was. */
  lemma OnlyAssignedParentWrites(s: Snapshot, call: GroupStatusCall, acall: ApproveCall, now: int, newId: string)
    ensures var o := UpdateGroupStatus(s, call, now);
            o.after != s ==>
              && call.auth.Some? && call.requestId.Str? && call.requestId.s in s.permissionRequests
              && s.permissionRequests[call.requestId.s].parentId == Some(call.auth.value)
              && o.result.Ok?
    ensures var o := Approve(s, acall, now, newId);
            o.after != s ==>
              && acall.auth.Some? && acall.requestId.Str? && acall.requestId.s in s.permissionRequests
              && s.permissionRequests[acall.requestId.s].parentId == Some(acall.auth.value)
              && s.permissionRequests[acall.requestId.s].status != Approved
              && o.result.Ok?
  {
  }

  /** A decision records who made it and when; approving clears an earlier rejection. */
  lemma DecisionStamped(s: Snapshot, call: GroupStatusCall, now: int)
    requires UpdateGroupStatus(s, call, now).after != s
    ensures var t := UpdateGroupStatus(s, call, now).after.permissionRequests[call.requestId.s];
            && t.status == ParseDecision(call.status).value
            && t.updatedAt == Some(now) && t.updatedBy == call.auth
            && (t.status == Approved ==> t.approvedAt == Some(now) && t.rejectedAt.None? && t.rejectedBy.None?)
            && (t.status == Rejected ==> t.rejectedAt == Some(now) && t.rejectedBy == call.auth)
            && UpdateGroupStatus(s, call, now).after == s.(permissionRequests := UpdateGroupStatus(s, call, now).after.permissionRequests)
  {
  }

  /** A successful approval leaves a contact joining the two users approved for the
      group: the first existing one, or a new one for the sorted pair when there is none.
      Every other contact is unchanged. The request is approved by the caller, a
      re-approval clears the earlier rejection, and no other request changes. */
  lemma ApprovalJoinsContact(s: Snapshot, call: ApproveCall, now: int, newId: string)
    requires call.requestId.Str? && call.requestId.s in s.permissionRequests
    requires s.permissionRequests[call.requestId.s].status != Approved
    requires Approve(s, call, now, newId).result.Ok?
    ensures var o := Approve(s, call, now, newId);
            var cid := o.result.value;
            var existing := ContactsJoining(s.contacts, call.childId, call.contactId);
            && cid.Some? && cid.value in o.after.contacts
            && var c := o.after.contacts[cid.value];
               && c.status == Approved && c.approvedForGroup && c.autoApproved
               && call.childId in c.users && call.contactId in c.users
               && (existing == {} ==> cid.value == newId && c.users == SortPair(call.childId, call.contactId) && c.addedVia == "group_approval")
               && (existing != {} ==> cid.value == FirstId(existing) && c.users == s.contacts[cid.value].users)
               && o.after.contacts == s.contacts[cid.value := c]
               && o.after == s.(contacts := o.after.contacts, permissionRequests := o.after.permissionRequests)
               && var before := s.permissionRequests[call.requestId.s];
                  var p := o.after.permissionRequests[call.requestId.s];
                  && o.after.permissionRequests == s.permissionRequests[call.requestId.s := p]
                  && p.status == Approved && p.approvedBy == call.auth && p.approvedAt == Some(now)
                  && p.updatedAt == Some(now)
                  && p.parentId == before.parentId && p.contactDocId == before.contactDocId
                  && p.updatedBy == before.updatedBy
                  && (before.status == Rejected ==> p.rejectedAt.None? && p.rejectedBy.None?)
                  && (before.status == Pending ==> p.rejectedAt == before.rejectedAt && p.rejectedBy == before.rejectedBy)
  {
    var existing := ContactsJoining(s.contacts, call.childId, call.contactId);
    if existing == {} {
      PairIndependentOfAsker(call.childId, call.contactId);
    }
  }

  /** Approving an already approved request is a no-op reporting the contact it names. */
  lemma ReapprovalWritesNothing(s: Snapshot, call: ApproveCall, now: int, newId: string)
    requires call.auth.Some? && call.requestId.Str? && call.requestId.s != "" && call.childId != "" && call.contactId != ""
    requires call.requestId.s in s.permissionRequests
    requires var p := s.permissionRequests[call.requestId.s];
             p.parentId == call.auth && p.status == Approved && p.contactDocId != ""
    ensures Approve(s, call, now, newId) ==
              ApproveOutcome(Ok(Some(s.permissionRequests[call.requestId.s].contactDocId)), s)
  {
  }
}
