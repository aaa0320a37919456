/** Contact requests between two users (functions/index.js:1555-1931): creating the
    contact and its two per-side requests, and a parent's decision on one side's request,
    which cascades to the contact and, on rejection, to the other side. */
module ContactRequests {
  import opened Outcomes
  import opened JsValues
  import opened Records
  import opened Store
  import opened Queries

  // ---------------------------------------------------------------------------
  // getLinkedParents and the approval a side needs
  // ---------------------------------------------------------------------------

  /** The ids of the approved link documents of a child: what `getLinkedParents` reads. */
  function ParentLinkIds(links: map<string, Link>, childId: string): set<string> {
    set k | k in links && links[k].childId == childId && links[k].status == Approved
  }

  /** `getLinkedParents(childId)[0]`: the parent of the child's first approved link. */
  ghost function FirstParent(links: map<string, Link>, childId: string): (p: string)
    requires ParentLinkIds(links, childId) != {}
    ensures exists k :: k in links && links[k] == links[FirstId(ParentLinkIds(links, childId))] &&
              links[k].parentId == p && links[k].childId == childId && links[k].status == Approved
  {
    links[FirstId(ParentLinkIds(links, childId))].parentId
  }

  /** `user.role || "child"`. */
  function Role(u: User): string {
    if u.role == "" then "child" else u.role
  }

  /** A side needs a parent's approval when it is a child with a linked parent. */
  predicate NeedsApproval(s: Snapshot, u: string)
    requires u in s.users
  {
    Role(s.users[u]) == "child" && ParentLinkIds(s.parentChildLinks, u) != {}
  }

  // ---------------------------------------------------------------------------
  // createContactRequest
  // ---------------------------------------------------------------------------

  /** What the callable receives. The two e-mail fields are not modelled. */
  datatype ContactCall = ContactCall(
    auth: Option<string>,
    contactUserId: JsValue,
    currentUserName: string,
    contactName: string)

  /** The ids `add()` generates for the contact and for its two requests. */
  datatype NewIds = NewIds(contact: string, request1: string, request2: string)

  /** A push notification to a parent that a child asks for a contact. */
  datatype Notice = Notice(token: string, title: string, body: string, childId: string)

  datatype ContactResult = ContactResult(
    contactId: string,
    status: Status,
    pendingCount: int,
    notices: seq<Notice>)

  datatype ContactOutcome = ContactOutcome(result: Result<ContactResult>, after: Snapshot)

  /** The ids of the contacts whose `users` array equals the sorted pair. */
  function ContactsOfPair(contacts: map<string, Contact>, pair: seq<string>): set<string> {
    set k | k in contacts && contacts[k].users == pair
  }

  predicate HasPendingRequestOn(requests: map<string, ContactRequest>, contactDocId: string) {
    exists k :: k in requests && requests[k].contactDocId == contactDocId && requests[k].status == Pending
  }

  /** Step 4: a pending request whose two parties both belong to the pair. */
  predicate HasPendingBetween(requests: map<string, ContactRequest>, pair: seq<string>) {
    exists k :: k in requests && requests[k].status == Pending &&
                requests[k].childId in pair && requests[k].contactId in pair
  }

  /** The name given for `u`, one of the two parties. */
  function NameFor(call: ContactCall, me: string, u: string): string {
    if u == me then call.currentUserName else call.contactName
  }

  /** `createContactRequest`. */
  ghost function CreateContact(s: Snapshot, call: ContactCall, now: int, ids: NewIds): ContactOutcome {
    if call.auth.None? then ContactOutcome(Err(Unauthenticated), s)
    else if !Truthy(call.contactUserId) then ContactOutcome(Err(InvalidArgument), s)
    else if !call.contactUserId.Str? then ContactOutcome(Err(Internal), s)
    else if call.auth.value == call.contactUserId.s then ContactOutcome(Err(InvalidArgument), s)
    else
      var pair := SortPair(call.auth.value, call.contactUserId.s);
      var matching := ContactsOfPair(s.contacts, pair);
      if matching == {} then Register(s, call, now, ids)
      else
        var stale := FirstId(matching);
        if s.contacts[stale].status == Approved then ContactOutcome(Err(AlreadyExists), s)
        else if s.contacts[stale].status == Pending && HasPendingRequestOn(s.contactRequests, stale) then
          ContactOutcome(Err(AlreadyExists), s)
        else Register(s.(contacts := s.contacts - {stale}), call, now, ids)
  }

  /** The request for side `child` of the pair, facing `other`. */
  ghost function SideRequest(s: Snapshot, call: ContactCall, me: string, child: string, other: string,
                             contactDocId: string, now: int): ContactRequest
    requires child in s.users
  {
    var needs := NeedsApproval(s, child);
    ContactRequest(child, other, NameFor(call, me, child), NameFor(call, me, other),
                   if needs then Pending else Approved,
                   if needs then Some(FirstParent(s.parentChildLinks, child)) else None,
                   contactDocId, now, None, None, None, None, None)
  }

  /** The notification to the first parent of a side that needs approval, when that
      parent has a device token. */
  ghost function NoticeFor(s: Snapshot, r: ContactRequest): seq<Notice> {
    if r.parentId.None? then []
    else
      var token := if r.parentId.value in s.users then s.users[r.parentId.value].fcmToken else "";
      if token == "" then []
      else [Notice(token, "Nueva solicitud de contacto", r.childName + " quiere agregar a " + r.contactName, r.childId)]
  }

  /** Steps 4 to 11, after any stale contact of the pair has been deleted. */
  ghost function Register(s: Snapshot, call: ContactCall, now: int, ids: NewIds): ContactOutcome
    requires call.auth.Some? && call.contactUserId.Str?
  {
    var me := call.auth.value;
    var pair := SortPair(me, call.contactUserId.s);
    if HasPendingBetween(s.contactRequests, pair) then ContactOutcome(Err(AlreadyExists), s)
    else if pair[0] !in s.users || pair[1] !in s.users then ContactOutcome(Err(NotFound), s)
    else
      var n1 := NeedsApproval(s, pair[0]);
      var n2 := NeedsApproval(s, pair[1]);
      var status := if n1 || n2 then Pending else Approved;
      var contact := Contact(pair, NameFor(call, me, pair[0]), NameFor(call, me, pair[1]), status, !n1 && !n2,
                             now, me, "user_code", [], false, None, None, None);
      var r1 := SideRequest(s, call, me, pair[0], pair[1], ids.contact, now);
      var r2 := SideRequest(s, call, me, pair[1], pair[0], ids.contact, now);
      var after := s.(contacts := s.contacts[ids.contact := contact],
                      contactRequests := s.contactRequests[ids.request1 := r1][ids.request2 := r2]);
      ContactOutcome(Ok(ContactResult(ids.contact, status, (if n1 then 1 else 0) + (if n2 then 1 else 0),
                                      NoticeFor(s, r1) + NoticeFor(s, r2))), after)
  }

  /** `getLinkedParents(u)[0]`, found by a pass over the approved links. */
  method FindFirstParent(db: Db, childId: string) returns (p: string)
    requires ParentLinkIds(db.parentChildLinks, childId) != {}
    ensures p == FirstParent(db.parentChildLinks, childId)
  {
    var k := FindFirstId(ParentLinkIds(db.parentChildLinks, childId));
    p := db.parentChildLinks[k].parentId;
  }

  method BuildSideRequest(db: Db, call: ContactCall, me: string, child: string, other: string, contactDocId: string, now: int)
    returns (r: ContactRequest)
    requires child in db.users
    ensures r == SideRequest(db.Snap(), call, me, child, other, contactDocId, now)
  {
    var needs := Role(db.users[child]) == "child" && ParentLinkIds(db.parentChildLinks, child) != {};
    var parentId: Option<string> := None;
    if needs {
      var p := FindFirstParent(db, child);
      parentId := Some(p);
    }
    r := ContactRequest(child, other, NameFor(call, me, child), NameFor(call, me, other),
                        if needs then Pending else Approved, parentId, contactDocId, now, None, None, None, None, None);
  }

  method BuildNotice(db: Db, r: ContactRequest) returns (n: seq<Notice>)
    ensures n == NoticeFor(db.Snap(), r)
  {
    n := [];
    if r.parentId.Some? {
      var token := if r.parentId.value in db.users then db.users[r.parentId.value].fcmToken else "";
      if token != "" {
        n := [Notice(token, "Nueva solicitud de contacto", r.childName + " quiere agregar a " + r.contactName, r.childId)];
      }
    }
  }

  /** The callable against the store. */
  method CreateContactRequest(db: Db, call: ContactCall, now: int, ids: NewIds) returns (r: Result<ContactResult>)
    modifies db`contacts, db`contactRequests
    ensures CreateContact(old(db.Snap()), call, now, ids) == ContactOutcome(r, db.Snap())
  {
    if call.auth.None? {
      return Err(Unauthenticated);
    }
    if !Truthy(call.contactUserId) {
      return Err(InvalidArgument);
    }
    if !call.contactUserId.Str? {
      return Err(Internal);
    }
    var currentUserId := call.auth.value;
    var contactUserId := call.contactUserId.s;
    if currentUserId == contactUserId {
      return Err(InvalidArgument);
    }
    var participants := SortPair(currentUserId, contactUserId);
    var matching := ContactsOfPair(db.contacts, participants);
    if matching != {} {
      var existing := FindFirstId(matching);
      var contactStatus := db.contacts[existing].status;
      if contactStatus == Approved {
        return Err(AlreadyExists);
      }
      if contactStatus == Pending && HasPendingRequestOn(db.contactRequests, existing) {
        return Err(AlreadyExists);
      }
      db.contacts := db.contacts - {existing};
    }
    r := RegisterContact(db, call, now, ids);
  }

  method RegisterContact(db: Db, call: ContactCall, now: int, ids: NewIds) returns (r: Result<ContactResult>)
    requires call.auth.Some? && call.contactUserId.Str?
    modifies db`contacts, db`contactRequests
    ensures Register(old(db.Snap()), call, now, ids) == ContactOutcome(r, db.Snap())
  {
    ghost var s := db.Snap();
    var currentUserId := call.auth.value;
    var participants := SortPair(currentUserId, call.contactUserId.s);
    if HasPendingBetween(db.contactRequests, participants) {
      return Err(AlreadyExists);
    }
    if participants[0] !in db.users || participants[1] !in db.users {
      return Err(NotFound);
    }
    var request1 := BuildSideRequest(db, call, currentUserId, participants[0], participants[1], ids.contact, now);
    var request2 := BuildSideRequest(db, call, currentUserId, participants[1], participants[0], ids.contact, now);
    var user1NeedsApproval := request1.status == Pending;
    var user2NeedsApproval := request2.status == Pending;
    assert user1NeedsApproval == NeedsApproval(s, participants[0]);
    assert user2NeedsApproval == NeedsApproval(s, participants[1]);
    var status := if user1NeedsApproval || user2NeedsApproval then Pending else Approved;
    var notices1 := BuildNotice(db, request1);
    var notices2 := BuildNotice(db, request2);
    db.contacts := db.contacts[ids.contact := Contact(participants, NameFor(call, currentUserId, participants[0]),
                                                      NameFor(call, currentUserId, participants[1]), status,
                                                      !user1NeedsApproval && !user2NeedsApproval, now, currentUserId,
                                                      "user_code", [], false, None, None, None)];
    db.contactRequests := db.contactRequests[ids.request1 := request1];
    db.contactRequests := db.contactRequests[ids.request2 := request2];
    r := Ok(ContactResult(ids.contact, status,
                          (if user1NeedsApproval then 1 else 0) + (if user2NeedsApproval then 1 else 0),
                          notices1 + notices2));
  }

  // ---------------------------------------------------------------------------
  // Properties of createContactRequest
  // ---------------------------------------------------------------------------

  /** The refusals before any lookup write nothing: no sign-in, no contact id, or the
      caller naming themself. */
  lemma EarlyRefusalsWriteNothing(s: Snapshot, call: ContactCall, now: int, ids: NewIds)
    requires call.auth.None? || !Truthy(call.contactUserId) ||
             (call.contactUserId.Str? && call.auth.value == call.contactUserId.s)
    ensures CreateContact(s, call, now, ids).after == s
    ensures CreateContact(s, call, now, ids).result.Err?
    ensures call.auth.Some? && call.contactUserId.Str? && call.auth.value == call.contactUserId.s ==>
              CreateContact(s, call, now, ids).result == Err(InvalidArgument)
  {
  }

  /** An approved contact of the pair, found first, blocks a new request and nothing
      is written. */
  lemma ApprovedContactBlocks(s: Snapshot, call: ContactCall, now: int, ids: NewIds)
    requires call.auth.Some? && call.contactUserId.Str? && call.contactUserId.s != ""
    requires call.auth.value != call.contactUserId.s
    requires var m := ContactsOfPair(s.contacts, SortPair(call.auth.value, call.contactUserId.s));
             m != {} && s.contacts[FirstId(m)].status == Approved
    ensures CreateContact(s, call, now, ids) == ContactOutcome(Err(AlreadyExists), s)
  {
  }

  /** A stale contact of the pair (rejected, or pending without pending requests) is
      deleted before the remaining checks run, so it is gone even when one of them then
      refuses the request. */
  lemma StaleContactDeletedFirst(s: Snapshot, call: ContactCall, now: int, ids: NewIds)
    requires call.auth.Some? && call.contactUserId.Str? && call.contactUserId.s != ""
    requires call.auth.value != call.contactUserId.s
    requires var m := ContactsOfPair(s.contacts, SortPair(call.auth.value, call.contactUserId.s));
             && m != {}
             && s.contacts[FirstId(m)].status != Approved
             && !(s.contacts[FirstId(m)].status == Pending && HasPendingRequestOn(s.contactRequests, FirstId(m)))
    ensures var m := ContactsOfPair(s.contacts, SortPair(call.auth.value, call.contactUserId.s));
            var o := CreateContact(s, call, now, ids);
            && (o.result.Err? ==> o.after == s.(contacts := s.contacts - {FirstId(m)}))
            && (o.result.Ok? ==> o.after.contacts - {ids.contact} == s.contacts - {FirstId(m), ids.contact})
  {
  }

  /** What a successful request creates: one contact for the sorted pair, pending
      exactly when some side needs approval and auto-approved otherwise; one request per
      side, the two mirroring each other, each pending exactly when its own side needs
      approval and then assigned to that side's first linked parent; and a pending count
      equal to the number of pending requests. The stale contact of the pair, if there
      was one, is gone; every other contact and request is as it was, and nothing but
      contacts and requests is written. */
  lemma CreatedContactAndRequests(s: Snapshot, call: ContactCall, now: int, ids: NewIds)
    requires ids.request1 != ids.request2
    requires CreateContact(s, call, now, ids).result.Ok?
    ensures var o := CreateContact(s, call, now, ids);
            var pair := SortPair(call.auth.value, call.contactUserId.s);
            var m := ContactsOfPair(s.contacts, pair);
            var kept := if m == {} then s.contacts else s.contacts - {FirstId(m)};
            && Registered(s, o, pair, ids, call.auth.value)
            && o.after.contacts == kept[ids.contact := o.after.contacts[ids.contact]]
            && o.after.contactRequests == s.contactRequests[ids.request1 := o.after.contactRequests[ids.request1]]
                                                           [ids.request2 := o.after.contactRequests[ids.request2]]
            && (m != {} && FirstId(m) != ids.contact ==> FirstId(m) !in o.after.contacts)
            && o.after == s.(contacts := o.after.contacts, contactRequests := o.after.contactRequests)
  {
    var pair := SortPair(call.auth.value, call.contactUserId.s);
    var m := ContactsOfPair(s.contacts, pair);
    var s1 := if m == {} then s else s.(contacts := s.contacts - {FirstId(m)});
    assert CreateContact(s, call, now, ids) == Register(s1, call, now, ids);
    RegisterCreates(s1, call, now, ids);
  }

  /** The shape of a successful registration, stated against the store it started from. */
  ghost predicate Registered(s: Snapshot, o: ContactOutcome, pair: seq<string>, ids: NewIds, me: string)
    requires |pair| == 2
  {
    && o.result.Ok?
    && ids.contact in o.after.contacts && ids.request1 in o.after.contactRequests && ids.request2 in o.after.contactRequests
    && pair[0] in s.users && pair[1] in s.users
    && var c := o.after.contacts[ids.contact];
       var r1 := o.after.contactRequests[ids.request1];
       var r2 := o.after.contactRequests[ids.request2];
       && c.users == pair && c.addedBy == me && c.addedVia == "user_code"
       && (c.status == Pending <==> NeedsApproval(s, pair[0]) || NeedsApproval(s, pair[1]))
       && (c.status == Approved <==> c.autoApproved)
       && (c.status == Approved <==> r1.status == Approved && r2.status == Approved)
       && r1.childId == r2.contactId == pair[0] && r2.childId == r1.contactId == pair[1]
       && r1.contactDocId == r2.contactDocId == ids.contact
       && (r1.status == Pending <==> NeedsApproval(s, pair[0]))
       && (r2.status == Pending <==> NeedsApproval(s, pair[1]))
       && (r1.parentId.Some? <==> r1.status == Pending)
       && (r2.parentId.Some? <==> r2.status == Pending)
       && o.result.value.status == c.status
       && o.result.value.pendingCount == (if r1.status == Pending then 1 else 0) + (if r2.status == Pending then 1 else 0)
  }

  lemma RegisterCreates(s: Snapshot, call: ContactCall, now: int, ids: NewIds)
    requires call.auth.Some? && call.contactUserId.Str?
    requires ids.request1 != ids.request2
    requires Register(s, call, now, ids).result.Ok?
    ensures var o := Register(s, call, now, ids);
            && Registered(s, o, SortPair(call.auth.value, call.contactUserId.s), ids, call.auth.value)
            && o.after.contacts == s.contacts[ids.contact := o.after.contacts[ids.contact]]
            && o.after.contactRequests == s.contactRequests[ids.request1 := o.after.contactRequests[ids.request1]]
                                                           [ids.request2 := o.after.contactRequests[ids.request2]]
            && o.after == s.(contacts := o.after.contacts, contactRequests := o.after.contactRequests)
  {
    var me := call.auth.value;
    var pair := SortPair(me, call.contactUserId.s);
    var r1 := SideRequest(s, call, me, pair[0], pair[1], ids.contact, now);
    var r2 := SideRequest(s, call, me, pair[1], pair[0], ids.contact, now);
    assert r1.status == Pending <==> NeedsApproval(s, pair[0]);
    assert r2.status == Pending <==> NeedsApproval(s, pair[1]);
  }

  /** The request a pending side gets goes to a parent the child is linked to by an
      approved link. */
  lemma PendingRequestGoesToLinkedParent(s: Snapshot, call: ContactCall, me: string, child: string, other: string,
                                         contactDocId: string, now: int)
    requires child in s.users
    ensures var r := SideRequest(s, call, me, child, other, contactDocId, now);
            r.parentId.Some? ==>
              exists k :: k in s.parentChildLinks && s.parentChildLinks[k].parentId == r.parentId.value &&
                          s.parentChildLinks[k].childId == child && s.parentChildLinks[k].status == Approved
  {
  }

  /** The contact's pair does not depend on which of the two asks. */
  lemma PairIndependentOfAsker(a: string, b: string)
    ensures SortPair(a, b) == SortPair(b, a)
    ensures SortPair(a, b)[0] in {a, b} && SortPair(a, b)[1] in {a, b}
  {
    SortPairCanonical(a, b);
    assert SortPair(a, b)[0] in multiset(SortPair(a, b));
    assert SortPair(a, b)[1] in multiset(SortPair(a, b));
  }

  // ---------------------------------------------------------------------------
  // updateContactRequestStatus
  // ---------------------------------------------------------------------------

  datatype StatusCall = StatusCall(auth: Option<string>, requestId: JsValue, status: JsValue)

  datatype StatusOutcome = StatusOutcome(result: Result<Status>, after: Snapshot)

  /** `["approved", "rejected"].includes(status)`. */
  function ParseDecision(v: JsValue): (r: Option<Status>)
    ensures r.Some? <==> v == Str("approved") || v == Str("rejected")
    ensures r.Some? ==> r.value != Pending
  {
    if v == Str("approved") then Some(Approved)
    else if v == Str("rejected") then Some(Rejected)
    else None
  }

  /** The request as updated by its parent's decision. */
  function Decided(r: ContactRequest, decision: Status, uid: string, now: int): ContactRequest {
    if decision == Approved then
      r.(status := Approved, updatedAt := Some(now), updatedBy := Some(uid),
         rejectedAt := None, rejectedBy := None, approvedAt := Some(now))
    else
      r.(status := decision, updatedAt := Some(now), updatedBy := Some(uid),
         rejectedAt := Some(now), rejectedBy := Some(uid))
  }

  /** Every request of the contact is approved (`allRequests.docs.every(...)`). */
  predicate AllApproved(requests: map<string, ContactRequest>, contactDocId: string) {
    forall k :: k in requests && requests[k].contactDocId == contactDocId ==> requests[k].status == Approved
  }

  /** The rejection batch: the contact's pending requests become rejected. */
  function RejectPending(requests: map<string, ContactRequest>, contactDocId: string, now: int): map<string, ContactRequest> {
    map k | k in requests ::
      if requests[k].contactDocId == contactDocId && requests[k].status == Pending
      then requests[k].(status := Rejected, updatedAt := Some(now))
      else requests[k]
  }

  /** `updateContactRequestStatus`. */
  function UpdateStatus(s: Snapshot, call: StatusCall, now: int): StatusOutcome {
    if call.auth.None? then StatusOutcome(Err(Unauthenticated), s)
    else if !Truthy(call.requestId) || !Truthy(call.status) then StatusOutcome(Err(InvalidArgument), s)
    else if ParseDecision(call.status).None? then StatusOutcome(Err(InvalidArgument), s)
    else if !call.requestId.Str? then StatusOutcome(Err(Internal), s)
    else if call.requestId.s !in s.contactRequests then StatusOutcome(Err(NotFound), s)
    else
      var uid := call.auth.value;
      var decision := ParseDecision(call.status).value;
      var req := s.contactRequests[call.requestId.s];
      if req.parentId != Some(uid) then StatusOutcome(Err(PermissionDenied), s)
      else if req.status == decision then StatusOutcome(Ok(decision), s)
      else
        var s1 := s.(contactRequests := s.contactRequests[call.requestId.s := Decided(req, decision, uid, now)]);
        Cascade(s1, req.contactDocId, decision, uid, now)
  }

  /** Steps 5 to 7: the contact follows the decision. A missing contact document makes
      its update throw, after the request was already updated. */
  function Cascade(s: Snapshot, contactDocId: string, decision: Status, uid: string, now: int): StatusOutcome {
    if contactDocId == "" then StatusOutcome(Ok(decision), s)
    else if decision == Approved then
      if !AllApproved(s.contactRequests, contactDocId) then StatusOutcome(Ok(decision), s)
      else if contactDocId !in s.contacts then StatusOutcome(Err(Internal), s)
      else
        var c := s.contacts[contactDocId];
        StatusOutcome(Ok(decision), s.(contacts := s.contacts[contactDocId := c.(status := Approved, approvedAt := Some(now))]))
    else
      if contactDocId !in s.contacts then StatusOutcome(Err(Internal), s)
      else
        var c := s.contacts[contactDocId];
        StatusOutcome(Ok(decision),
          s.(contacts := s.contacts[contactDocId := c.(status := Rejected, rejectedAt := Some(now), rejectedBy := Some(uid))],
             contactRequests := RejectPending(s.contactRequests, contactDocId, now)))
  }

  /** The callable against the store. */
  method UpdateContactRequestStatus(db: Db, call: StatusCall, now: int) returns (r: Result<Status>)
    modifies db`contacts, db`contactRequests
    ensures UpdateStatus(old(db.Snap()), call, now) == StatusOutcome(r, db.Snap())
  {
    if call.auth.None? {
      return Err(Unauthenticated);
    }
    if !Truthy(call.requestId) || !Truthy(call.status) {
      return Err(InvalidArgument);
    }
    var decision := ParseDecision(call.status);
    if decision.None? {
      return Err(InvalidArgument);
    }
    if !call.requestId.Str? {
      return Err(Internal);
    }
    var requestId := call.requestId.s;
    if requestId !in db.contactRequests {
      return Err(NotFound);
    }
    var uid := call.auth.value;
    var requestData := db.contactRequests[requestId];
    if requestData.parentId != Some(uid) {
      return Err(PermissionDenied);
    }
    if requestData.status == decision.value {
      return Ok(decision.value);
    }
    db.contactRequests := db.contactRequests[requestId := Decided(requestData, decision.value, uid, now)];
    r := ApplyCascade(db, requestData.contactDocId, decision.value, uid, now);
  }

  method ApplyCascade(db: Db, contactDocId: string, decision: Status, uid: string, now: int) returns (r: Result<Status>)
    modifies db`contacts, db`contactRequests
    ensures Cascade(old(db.Snap()), contactDocId, decision, uid, now) == StatusOutcome(r, db.Snap())
  {
    if contactDocId == "" {
      return Ok(decision);
    }
    if decision == Approved {
      var allApproved := AllApproved(db.contactRequests, contactDocId);
      if allApproved {
        if contactDocId !in db.contacts {
          return Err(Internal);
        }
        db.contacts := db.contacts[contactDocId := db.contacts[contactDocId].(status := Approved, approvedAt := Some(now))];
      }
      return Ok(decision);
    }
    if contactDocId !in db.contacts {
      return Err(Internal);
    }
    db.contacts := db.contacts[contactDocId := db.contacts[contactDocId].(status := Rejected, rejectedAt := Some(now),
                                                                           rejectedBy := Some(uid))];
    var pending := db.contactRequests.Keys;
    var batch := db.contactRequests;
    while pending != {}
      invariant pending <= db.contactRequests.Keys && batch.Keys == db.contactRequests.Keys
      invariant forall k :: k in batch ==>
                  batch[k] == if k in pending then db.contactRequests[k] else RejectPending(db.contactRequests, contactDocId, now)[k]
      decreases pending
    {
      var k :| k in pending;
      if batch[k].contactDocId == contactDocId && batch[k].status == Pending {
        batch := batch[k := batch[k].(status := Rejected, updatedAt := Some(now))];
      }
      pending := pending - {k};
    }
    db.contactRequests := batch;
    r := Ok(decision);
  }

  // ---------------------------------------------------------------------------
  // Properties of updateContactRequestStatus
  // ---------------------------------------------------------------------------

  /** Only the parent the request is assigned to can change it; everyone else is
      refused and nothing is written. */
  lemma OnlyAssignedParentDecides(s: Snapshot, call: StatusCall, now: int)
    ensures var o := UpdateStatus(s, call, now);
            o.after != s ==>
              && call.auth.Some? && call.requestId.Str? && call.requestId.s in s.contactRequests
              && s.contactRequests[call.requestId.s].parentId == Some(call.auth.value)
  {
  }

  /** Deciding what a request already says succeeds and writes nothing. */
  lemma SameDecisionIsNoOp(s: Snapshot, call: StatusCall, now: int)
    requires call.auth.Some? && call.requestId.Str? && call.requestId.s != "" && call.requestId.s in s.contactRequests
    requires ParseDecision(call.status).Some?
    requires s.contactRequests[call.requestId.s].parentId == Some(call.auth.value)
    requires s.contactRequests[call.requestId.s].status == ParseDecision(call.status).value
    ensures UpdateStatus(s, call, now) == StatusOutcome(Ok(ParseDecision(call.status).value), s)
  {
  }

  /** A decision is recorded on the request with who made it and when: an approval
      clears an earlier rejection, a rejection records its author. */
  lemma DecisionRecorded(r: ContactRequest, decision: Status, uid: string, now: int)
    requires decision != Pending
    ensures var d := Decided(r, decision, uid, now);
            && d.status == decision && d.updatedAt == Some(now) && d.updatedBy == Some(uid)
            && (decision == Approved ==> d.approvedAt == Some(now) && d.rejectedAt.None? && d.rejectedBy.None?)
            && (decision == Rejected ==> d.rejectedAt == Some(now) && d.rejectedBy == Some(uid) && d.approvedAt == r.approvedAt)
            && d.childId == r.childId && d.contactId == r.contactId && d.parentId == r.parentId && d.contactDocId == r.contactDocId
  {
  }

  /** An approval completes the contact exactly when it leaves no request of the contact
      unapproved; until then the contact is unchanged. */
  lemma ApprovalCompletesContactIff(s: Snapshot, contactDocId: string, uid: string, now: int)
    requires contactDocId != "" && contactDocId in s.contacts
    ensures var o := Cascade(s, contactDocId, Approved, uid, now);
            && o.result == Ok(Approved)
            && o.after.contactRequests == s.contactRequests
            && (o.after.contacts[contactDocId].status == Approved <==>
                  AllApproved(s.contactRequests, contactDocId) || s.contacts[contactDocId].status == Approved)
            && (!AllApproved(s.contactRequests, contactDocId) ==> o.after == s)
  {
  }

  /** A rejection rejects the contact and every request of it that was still pending;
      requests already approved, and requests of other contacts, keep their state. */
  lemma RejectionCascade(s: Snapshot, contactDocId: string, uid: string, now: int)
    requires contactDocId != "" && contactDocId in s.contacts
    ensures var o := Cascade(s, contactDocId, Rejected, uid, now);
            && o.result == Ok(Rejected)
            && o.after.contacts[contactDocId].status == Rejected
            && o.after.contacts[contactDocId].rejectedBy == Some(uid)
            && o.after.contactRequests.Keys == s.contactRequests.Keys
            && (forall k :: k in s.contactRequests ==>
                  var before := s.contactRequests[k];
                  var after := o.after.contactRequests[k];
                  && (before.contactDocId == contactDocId && before.status == Pending ==> after.status == Rejected)
                  && (before.contactDocId != contactDocId || before.status != Pending ==> after == before))
  {
  }

  /** When the contact document is missing, the cascade throws after the request was
      updated: the caller sees `internal` but the decision stays recorded. */
  lemma MissingContactAfterDecision(s: Snapshot, call: StatusCall, now: int)
    requires call.auth.Some? && call.requestId.Str? && call.requestId.s != "" && call.requestId.s in s.contactRequests
    requires ParseDecision(call.status) == Some(Rejected)
    requires var r := s.contactRequests[call.requestId.s];
             r.parentId == Some(call.auth.value) && r.status != Rejected &&
             r.contactDocId != "" && r.contactDocId !in s.contacts
    ensures var o := UpdateStatus(s, call, now);
            && o.result == Err(Internal)
            && o.after.contactRequests[call.requestId.s].status == Rejected
            && o.after.contacts == s.contacts
  {
  }

  /** The two parents of a pair of linked children approve, one after the other: the
      contact ends approved, whichever of them decides first. */
  lemma BothParentsApprove(s: Snapshot, id1: string, id2: string, p1: string, p2: string, now1: int, now2: int)
    requires id1 != id2 && id1 != "" && id2 != "" && id1 in s.contactRequests && id2 in s.contactRequests
    requires var r1 := s.contactRequests[id1];
             var r2 := s.contactRequests[id2];
             && r1.parentId == Some(p1) && r2.parentId == Some(p2)
             && r1.status == Pending && r2.status == Pending
             && r1.contactDocId == r2.contactDocId && r1.contactDocId != "" && r1.contactDocId in s.contacts
             && forall k :: k in s.contactRequests && s.contactRequests[k].contactDocId == r1.contactDocId ==> k == id1 || k == id2
    ensures var o1 := UpdateStatus(s, StatusCall(Some(p1), Str(id1), Str("approved")), now1);
            var o2 := UpdateStatus(o1.after, StatusCall(Some(p2), Str(id2), Str("approved")), now2);
            && o1.result == Ok(Approved) && o2.result == Ok(Approved)
            && s.contactRequests[id1].contactDocId in o2.after.contacts
            && o2.after.contacts[s.contactRequests[id1].contactDocId].status == Approved
  {
    var cid := s.contactRequests[id1].contactDocId;
    var s1 := s.(contactRequests := s.contactRequests[id1 := Decided(s.contactRequests[id1], Approved, p1, now1)]);
    FirstApprovalWaits(s, id1, id2, p1, now1);
    LastApprovalCompletes(s1, id2, p2, now2);
  }

  /** While another request of the contact is pending, an approval only updates its own
      request. */
  lemma FirstApprovalWaits(s: Snapshot, id1: string, id2: string, p1: string, now1: int)
    requires id1 != id2 && id1 != "" && id1 in s.contactRequests && id2 in s.contactRequests
    requires s.contactRequests[id1].parentId == Some(p1) && s.contactRequests[id1].status == Pending
    requires s.contactRequests[id2].status == Pending
    requires s.contactRequests[id1].contactDocId == s.contactRequests[id2].contactDocId
    ensures UpdateStatus(s, StatusCall(Some(p1), Str(id1), Str("approved")), now1) ==
              StatusOutcome(Ok(Approved), s.(contactRequests := s.contactRequests[id1 := Decided(s.contactRequests[id1], Approved, p1, now1)]))
  {
    var cid := s.contactRequests[id1].contactDocId;
    var s1 := s.(contactRequests := s.contactRequests[id1 := Decided(s.contactRequests[id1], Approved, p1, now1)]);
    ApprovalReachesCascade(s, id1, p1, now1);
    assert !AllApproved(s1.contactRequests, cid) by {
      assert s1.contactRequests[id2].status == Pending;
    }
  }

  /** An approval of the last unapproved request of an existing contact approves it. */
  lemma LastApprovalCompletes(s: Snapshot, id: string, p: string, now: int)
    requires id != "" && id in s.contactRequests
    requires s.contactRequests[id].parentId == Some(p) && s.contactRequests[id].status == Pending
    requires var cid := s.contactRequests[id].contactDocId;
             && cid != "" && cid in s.contacts
             && forall k :: k in s.contactRequests && s.contactRequests[k].contactDocId == cid ==>
                  k == id || s.contactRequests[k].status == Approved
    ensures var o := UpdateStatus(s, StatusCall(Some(p), Str(id), Str("approved")), now);
            && o.result == Ok(Approved)
            && s.contactRequests[id].contactDocId in o.after.contacts
            && o.after.contacts[s.contactRequests[id].contactDocId].status == Approved
  {
    var cid := s.contactRequests[id].contactDocId;
    ApprovalReachesCascade(s, id, p, now);
    var s1 := s.(contactRequests := s.contactRequests[id := Decided(s.contactRequests[id], Approved, p, now)]);
    assert AllApproved(s1.contactRequests, cid);
  }

  /** A pending request approved by its parent is recorded, then the contact cascade runs. */
  lemma ApprovalReachesCascade(s: Snapshot, id: string, p: string, now: int)
    requires id != "" && id in s.contactRequests
    requires s.contactRequests[id].parentId == Some(p) && s.contactRequests[id].status == Pending
    ensures var r := s.contactRequests[id];
            UpdateStatus(s, StatusCall(Some(p), Str(id), Str("approved")), now) ==
              Cascade(s.(contactRequests := s.contactRequests[id := Decided(r, Approved, p, now)]), r.contactDocId, Approved, p, now)
  {
    assert ParseDecision(Str("approved")) == Some(Approved);
  }
}
