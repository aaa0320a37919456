/** `createParentChildLink` (functions/index.js:1024-1284): the callable that links a
    parent account to a child account. The checks run in a fixed order and write nothing,
    except that the rate limiter has already consumed a slot; then one batch writes the
    link, its legacy copy, the two whitelist entries, the child's approved parents and the
    used code; finally the child's contacts learn the new parent, on a best-effort basis. */
module ParentChildLink {
  import opened Outcomes
  import opened JsValues
  import opened Validation
  import opened Records
  import opened Store
  import opened RateLimit

  const LINK_REASON: string := "Vínculo padre-hijo"
  const CREATE_LINK_ACTION: string := "createLink"

  /** What the callable receives: the App Check verdict, the caller's uid if signed in,
      and `request.data`. */
  datatype LinkCall = LinkCall(appCheckValid: bool, auth: Option<string>, params: LinkParams)

  datatype LinkResult = LinkResult(
    linkId: string,
    parentId: string,
    childId: string,
    parentName: string,
    childName: string,
    linkedAt: int)

  /** The infrastructure failures the function meets: inside the rate limiter's
      transaction, at `batch.commit()`, and in the contact fan-out. */
  datatype Faults = Faults(rateLimit: bool, commit: bool, contactFanOut: bool)

  /** The document id of a link, `${parentId}_${childId}`. */
  function LinkId(parentId: string, childId: string): string {
    parentId + "_" + childId
  }

  /** The checks that come before the rate limiter: App Check, sign-in, parameters. */
  function EntryGuard(call: LinkCall): Option<Error> {
    if !call.appCheckValid then Some(Unauthenticated)
    else if call.auth.None? then Some(Unauthenticated)
    else if !ValidateLinkParams(call.params).Valid? then Some(InvalidArgument)
    else None
  }

  /** The code to check, when `if (code)` holds. */
  function CodeOf(params: LinkParams): Option<string> {
    if Truthy(params.code) && params.code.Str? then Some(params.code.s) else None
  }

  /** `where("code", "==", code).limit(1)`: the first code document with that code. */
  function FirstCode(codes: seq<LinkCode>, code: string): (r: Option<nat>)
    ensures r.Some? ==> r.value < |codes| && codes[r.value].code == code
    ensures r.Some? ==> forall j :: 0 <= j < r.value ==> codes[j].code != code
    ensures r.None? ==> forall j :: 0 <= j < |codes| ==> codes[j].code != code
  {
    if codes == [] then None
    else if codes[0].code == code then Some(0)
    else
      var rest := FirstCode(codes[1..], code);
      if rest.Some? then Some(rest.value + 1) else None
  }

  /** The legacy `parent_children` query for this exact (parent, child) direction. */
  predicate HasCompatLink(links: seq<CompatLink>, parentId: string, childId: string) {
    exists i :: 0 <= i < |links| && links[i].parentId == parentId && links[i].childId == childId
  }

  /** The checks that come after the rate limiter, in the order the source makes them. */
  function StateGuard(s: Snapshot, caller: string, p: string, c: string, code: Option<string>, now: int): Option<Error> {
    var found := if code.Some? then FirstCode(s.linkCodes, code.value) else None;
    if caller != p && caller != c then Some(PermissionDenied)
    else if code.Some? && found.None? then Some(NotFound)
    else if found.Some? && s.linkCodes[found.value].expiresAt.Some? && s.linkCodes[found.value].expiresAt.value < now then
      Some(FailedPrecondition)
    else if found.Some? && s.linkCodes[found.value].createdBy != p && s.linkCodes[found.value].createdBy != c then
      Some(PermissionDenied)
    else if p !in s.users then Some(NotFound)
    else if c !in s.users then Some(NotFound)
    else if LinkId(p, c) in s.parentChildLinks && s.parentChildLinks[LinkId(p, c)].status == Approved then
      Some(AlreadyExists)
    else if HasCompatLink(s.parentChildren, p, c) then Some(AlreadyExists)
    else None
  }

  /** The batch update of the code document the second query finds, if any. */
  function MarkCodeUsed(codes: seq<LinkCode>, code: Option<string>, caller: string, now: int): seq<LinkCode> {
    if code.None? then codes
    else
      var found := FirstCode(codes, code.value);
      if found.None? then codes
      else codes[found.value := codes[found.value].(used := true, usedAt := Some(now), usedBy := Some(caller))]
  }

  function ApprovedParents(locations: map<string, seq<string>>, childId: string): seq<string> {
    if childId in locations then locations[childId] else []
  }

  /** Everything the batch writes. */
  function LinkBatch(s: Snapshot, caller: string, p: string, c: string, code: Option<string>, now: int): Snapshot {
    s.(parentChildLinks := s.parentChildLinks[LinkId(p, c) := Link(p, c, Approved, now, caller)],
       parentChildren := s.parentChildren + [CompatLink(p, c, now, caller)],
       whitelist := s.whitelist + [WhitelistEntry(c, p, Approved, p, now, LINK_REASON),
                                   WhitelistEntry(p, c, Approved, p, now, LINK_REASON)],
       userLocations := s.userLocations[c := ArrayUnion(ApprovedParents(s.userLocations, c), p)],
       linkCodes := MarkCodeUsed(s.linkCodes, code, caller, now))
  }

  /** One contact after the fan-out. */
  function AddApprovedParent(contact: Contact, p: string, c: string): Contact {
    if c in contact.users then contact.(approvedParentIds := ArrayUnion(contact.approvedParentIds, p)) else contact
  }

  /** The fan-out over `where("users", "array-contains", childId)`. */
  function FanOut(contacts: map<string, Contact>, p: string, c: string): map<string, Contact> {
    map k | k in contacts :: AddApprovedParent(contacts[k], p, c)
  }

  datatype Outcome = Outcome(result: Result<LinkResult>, after: Snapshot)

  /** The snapshot after the rate limiter's check for the caller. */
  function AfterRateCheck(s: Snapshot, caller: string, now: int, fault: bool): Snapshot {
    var key := DocId(caller, CREATE_LINK_ACTION);
    s.(rateLimits := Put(s.rateLimits, key, Check(Lookup(s.rateLimits, key), caller, CREATE_LINK_ACTION, CREATE_LINK, now, fault).record))
  }

  function RateDecision(s: Snapshot, caller: string, now: int, fault: bool): Decision {
    var key := DocId(caller, CREATE_LINK_ACTION);
    Check(Lookup(s.rateLimits, key), caller, CREATE_LINK_ACTION, CREATE_LINK, now, fault).decision
  }

  /** The delay a refusal reports; the limiter always supplies one (`RefusalHasDelay`). */
  function RetryAfter(d: Decision): int {
    if d.retryAfter.Some? then d.retryAfter.value else 0
  }

  lemma RefusalHasDelay(s: Snapshot, caller: string, now: int, fault: bool)
    ensures !RateDecision(s, caller, now, fault).allowed ==> RateDecision(s, caller, now, fault).retryAfter.Some?
  {
  }

  /** `createParentChildLink` with the `admin` reference resolved and errors of kind
      `HttpsError` re-thrown unchanged, as the handler's comment intends. */
  function CreateLink(s: Snapshot, call: LinkCall, now: int, faults: Faults): Outcome {
    if EntryGuard(call).Some? then Outcome(Err(EntryGuard(call).value), s)
    else Admitted(s, call.auth.value, call.params.parentId.s, call.params.childId.s, CodeOf(call.params), now, faults)
  }

  /** From the rate limiter on, for a signed-in caller with valid parameters. */
  function Admitted(s: Snapshot, caller: string, p: string, c: string, code: Option<string>, now: int, faults: Faults): Outcome {
    var d := RateDecision(s, caller, now, faults.rateLimit);
    var s1 := AfterRateCheck(s, caller, now, faults.rateLimit);
    if !d.allowed then Outcome(Err(ResourceExhausted(RetryAfter(d))), s1)
    else Linked(s1, caller, p, c, code, now, faults)
  }

  /** From the checks after the rate limiter on. */
  function Linked(s: Snapshot, caller: string, p: string, c: string, code: Option<string>, now: int, faults: Faults): Outcome {
    var g := StateGuard(s, caller, p, c, code, now);
    if g.Some? then Outcome(Err(g.value), s)
    else if faults.commit then Outcome(Err(Internal), s)
    else
      var s2 := LinkBatch(s, caller, p, c, code, now);
      var s3 := if faults.contactFanOut then s2 else s2.(contacts := FanOut(s2.contacts, p, c));
      Outcome(Ok(LinkResult(LinkId(p, c), p, c, s.users[p].name, s.users[c].name, now)), s3)
  }

  /** The callable against the store. */
  method CreateParentChildLink(db: Db, call: LinkCall, now: int, faults: Faults) returns (r: Result<LinkResult>)
    modifies db
    ensures CreateLink(old(db.Snap()), call, now, faults) == Outcome(r, db.Snap())
  {
    ghost var s := db.Snap();
    var entry := EntryGuard(call);
    if entry.Some? {
      return Err(entry.value);
    }
    var callerId := call.auth.value;
    var parentId := call.params.parentId.s;
    var childId := call.params.childId.s;
    var code := CodeOf(call.params);
    var rateLimitCheck := CheckRateLimit(db, callerId, CREATE_LINK_ACTION, CREATE_LINK, now, faults.rateLimit);
    assert db.Snap() == AfterRateCheck(s, callerId, now, faults.rateLimit);
    if !rateLimitCheck.allowed {
      return Err(ResourceExhausted(RetryAfter(rateLimitCheck)));
    }
    r := LinkAfterRateCheck(db, callerId, parentId, childId, code, now, faults);
  }

  /** The checks after the rate limiter, the batch and the fan-out. */
  method LinkAfterRateCheck(db: Db, callerId: string, parentId: string, childId: string, code: Option<string>,
                            now: int, faults: Faults) returns (r: Result<LinkResult>)
    modifies db
    ensures Linked(old(db.Snap()), callerId, parentId, childId, code, now, faults) == Outcome(r, db.Snap())
  {
    var guard := StateGuard(db.Snap(), callerId, parentId, childId, code, now);
    if guard.Some? {
      return Err(guard.value);
    }
    if faults.commit {
      return Err(Internal);
    }
    var parentName := db.users[parentId].name;
    var childName := db.users[childId].name;
    var linkId := LinkId(parentId, childId);
    CommitLinkBatch(db, callerId, parentId, childId, code, now);
    if !faults.contactFanOut {
      AddParentToContacts(db, parentId, childId);
    }
    r := Ok(LinkResult(linkId, parentId, childId, parentName, childName, now));
  }

  /** The batch of the link: all its writes, committed together. */
  method CommitLinkBatch(db: Db, callerId: string, parentId: string, childId: string, code: Option<string>, now: int)
    modifies db
    ensures db.Snap() == LinkBatch(old(db.Snap()), callerId, parentId, childId, code, now)
  {
    var linkId := LinkId(parentId, childId);
    db.parentChildLinks := db.parentChildLinks[linkId := Link(parentId, childId, Approved, now, callerId)];
    db.parentChildren := db.parentChildren + [CompatLink(parentId, childId, now, callerId)];
    db.whitelist := db.whitelist + [WhitelistEntry(childId, parentId, Approved, parentId, now, LINK_REASON),
                                    WhitelistEntry(parentId, childId, Approved, parentId, now, LINK_REASON)];
    db.userLocations := db.userLocations[childId := ArrayUnion(ApprovedParents(db.userLocations, childId), parentId)];
    db.linkCodes := MarkCodeUsed(db.linkCodes, code, callerId, now);
  }

  /** The contact batch: every contact whose users hold the child gains the parent. */
  method AddParentToContacts(db: Db, parentId: string, childId: string)
    modifies db`contacts
    ensures db.contacts == FanOut(old(db.contacts), parentId, childId)
  {
    var pending := db.contacts.Keys;
    var updated := db.contacts;
    while pending != {}
      invariant pending <= db.contacts.Keys && updated.Keys == db.contacts.Keys
      invariant forall k :: k in updated ==>
                  updated[k] == if k in pending then db.contacts[k] else AddApprovedParent(db.contacts[k], parentId, childId)
      decreases pending
    {
      var k :| k in pending;
      if childId in updated[k].users {
        updated := updated[k := updated[k].(approvedParentIds := ArrayUnion(updated[k].approvedParentIds, parentId))];
      }
      pending := pending - {k};
    }
    db.contacts := updated;
  }

  // ---------------------------------------------------------------------------
  // Properties
  // ---------------------------------------------------------------------------

  /** The checks before the rate limiter reject without writing anything. */
  lemma EntryRejectionWritesNothing(s: Snapshot, call: LinkCall, now: int, faults: Faults)
    requires EntryGuard(call).Some?
    ensures CreateLink(s, call, now, faults) == Outcome(Err(EntryGuard(call).value), s)
    ensures EntryGuard(call) == Some(Unauthenticated) <==> !call.appCheckValid || call.auth.None?
  {
  }

  /** The rate check touches nothing but the limiter's records. */
  lemma RateCheckFrame(s: Snapshot, caller: string, now: int, fault: bool)
    ensures AfterRateCheck(s, caller, now, fault).(rateLimits := s.rateLimits) == s
  {
  }

  /** The checks after the rate limiter, and a failed commit, write nothing. */
  lemma LinkedErrorsWriteNothing(s: Snapshot, caller: string, p: string, c: string, code: Option<string>, now: int, faults: Faults)
    ensures Linked(s, caller, p, c, code, now, faults).result.Err? ==> Linked(s, caller, p, c, code, now, faults).after == s
  {
  }

  /** No error leaves a trace beyond the rate-limit slot: every other collection is as it
      was, so the batch is all or nothing. */
  lemma ErrorsOnlyConsumeRateSlot(s: Snapshot, call: LinkCall, now: int, faults: Faults)
    ensures var o := CreateLink(s, call, now, faults);
            o.result.Err? ==> o.after.(rateLimits := s.rateLimits) == s
  {
    if EntryGuard(call).None? {
      var caller := call.auth.value;
      RateCheckFrame(s, caller, now, faults.rateLimit);
      LinkedErrorsWriteNothing(AfterRateCheck(s, caller, now, faults.rateLimit), caller, call.params.parentId.s,
                               call.params.childId.s, CodeOf(call.params), now, faults);
    }
  }

  /** The slot is consumed before the caller's identity is checked: a signed-in caller
      with valid parameters who is neither the parent nor the child is refused, and the
      limiter's record has still been updated. */
  lemma StrangerConsumesSlot(s: Snapshot, call: LinkCall, now: int, faults: Faults)
    requires EntryGuard(call).None?
    requires call.auth.value != call.params.parentId.s && call.auth.value != call.params.childId.s
    requires RateDecision(s, call.auth.value, now, faults.rateLimit).allowed
    ensures CreateLink(s, call, now, faults) ==
              Outcome(Err(PermissionDenied), AfterRateCheck(s, call.auth.value, now, faults.rateLimit))
  {
  }

  /** The code checks pass: no code was sent, or the first document with that code has
      not expired and was created by the parent or the child. */
  predicate CodeAccepted(codes: seq<LinkCode>, p: string, c: string, code: Option<string>, now: int) {
    code.Some? ==>
      var k := FirstCode(codes, code.value);
      && k.Some?
      && (codes[k.value].expiresAt.None? || codes[k.value].expiresAt.value >= now)
      && (codes[k.value].createdBy == p || codes[k.value].createdBy == c)
  }

  /** The checks after the rate limiter pass exactly when the caller is the parent or the
      child, a named code exists, has not expired and was created by one of them, both
      users exist, and the pair is linked in neither collection. */
  lemma StateGuardPasses(s: Snapshot, caller: string, p: string, c: string, code: Option<string>, now: int)
    ensures StateGuard(s, caller, p, c, code, now).None? <==>
              && (caller == p || caller == c)
              && CodeAccepted(s.linkCodes, p, c, code, now)
              && p in s.users && c in s.users
              && !(LinkId(p, c) in s.parentChildLinks && s.parentChildLinks[LinkId(p, c)].status == Approved)
              && !HasCompatLink(s.parentChildren, p, c)
  {
  }

  /** The checks after the rate limiter do not look at the limiter's records. */
  lemma StateGuardIgnoresRateLimits(s: Snapshot, r: map<string, RateRecord>, caller: string, p: string, c: string,
                                    code: Option<string>, now: int)
    ensures StateGuard(s.(rateLimits := r), caller, p, c, code, now) == StateGuard(s, caller, p, c, code, now)
  {
  }

  lemma LinkedOkIff(s: Snapshot, caller: string, p: string, c: string, code: Option<string>, now: int, faults: Faults)
    ensures Linked(s, caller, p, c, code, now, faults).result.Ok? <==>
              StateGuard(s, caller, p, c, code, now).None? && !faults.commit
  {
  }

  /** A call succeeds exactly when it passes App Check, is signed in, has valid
      parameters, is admitted by the limiter, passes the checks after it and the batch
      commits. */
  lemma SuccessIff(s: Snapshot, call: LinkCall, now: int, faults: Faults)
    ensures CreateLink(s, call, now, faults).result.Ok? <==>
              && call.appCheckValid && call.auth.Some? && ValidateLinkParams(call.params).Valid?
              && RateDecision(s, call.auth.value, now, faults.rateLimit).allowed
              && StateGuard(s, call.auth.value, call.params.parentId.s, call.params.childId.s, CodeOf(call.params), now).None?
              && !faults.commit
  {
    if EntryGuard(call).None? {
      var caller := call.auth.value;
      var s1 := AfterRateCheck(s, caller, now, faults.rateLimit);
      StateGuardIgnoresRateLimits(s, s1.rateLimits, caller, call.params.parentId.s, call.params.childId.s, CodeOf(call.params), now);
      assert s1 == s.(rateLimits := s1.rateLimits);
      LinkedOkIff(s1, caller, call.params.parentId.s, call.params.childId.s, CodeOf(call.params), now, faults);
    }
  }

  /** What a success writes: the approved link under `parentId_childId`, the legacy copy,
      the two mirrored whitelist entries approved by the parent, the parent among the
      child's approved parents, and, exactly when a code was given, that code's document
      marked used by the caller; users are untouched and the result names both users. */
  lemma SuccessWrites(s: Snapshot, caller: string, p: string, c: string, code: Option<string>, now: int, faults: Faults)
    requires Linked(s, caller, p, c, code, now, faults).result.Ok?
    ensures var o := Linked(s, caller, p, c, code, now, faults);
            && o.after.parentChildLinks == s.parentChildLinks[LinkId(p, c) := Link(p, c, Approved, now, caller)]
            && o.after.parentChildren == s.parentChildren + [CompatLink(p, c, now, caller)]
            && o.after.whitelist == s.whitelist + [WhitelistEntry(c, p, Approved, p, now, LINK_REASON),
                                                   WhitelistEntry(p, c, Approved, p, now, LINK_REASON)]
            && c in o.after.userLocations && p in o.after.userLocations[c]
            && o.after.users == s.users && o.after.rateLimits == s.rateLimits
            && o.result.value == LinkResult(LinkId(p, c), p, c, s.users[p].name, s.users[c].name, now)
            && |o.after.linkCodes| == |s.linkCodes|
            && (code.None? ==> o.after.linkCodes == s.linkCodes)
            && (code.Some? ==>
                  var k := FirstCode(s.linkCodes, code.value);
                  && k.Some?
                  && o.after.linkCodes == s.linkCodes[k.value := s.linkCodes[k.value].(used := true, usedAt := Some(now), usedBy := Some(caller))])
  {
  }

  // Each refusal, with its error code, in the order the checks are made. From the
  // limiter on, the limiter's record is the only write.

  /** Invalid parameters, once App Check and sign-in pass: `invalid-argument`. */
  lemma InvalidParamsRefused(s: Snapshot, call: LinkCall, now: int, faults: Faults)
    requires call.appCheckValid && call.auth.Some? && !ValidateLinkParams(call.params).Valid?
    ensures CreateLink(s, call, now, faults) == Outcome(Err(InvalidArgument), s)
  {
  }

  /** The limiter's refusal: `resource-exhausted` with the limiter's retry delay. */
  lemma LimiterRefusalReported(s: Snapshot, call: LinkCall, now: int, faults: Faults)
    requires EntryGuard(call).None? && !RateDecision(s, call.auth.value, now, faults.rateLimit).allowed
    ensures RateDecision(s, call.auth.value, now, faults.rateLimit).retryAfter.Some?
    ensures CreateLink(s, call, now, faults) ==
              Outcome(Err(ResourceExhausted(RateDecision(s, call.auth.value, now, faults.rateLimit).retryAfter.value)),
                      AfterRateCheck(s, call.auth.value, now, faults.rateLimit))
  {
    RefusalHasDelay(s, call.auth.value, now, faults.rateLimit);
  }

  /** The call reaches the checks after the limiter, made by the parent or the child. */
  predicate ReachesStateChecks(s: Snapshot, call: LinkCall, now: int, faults: Faults) {
    && EntryGuard(call).None?
    && RateDecision(s, call.auth.value, now, faults.rateLimit).allowed
    && (call.auth.value == call.params.parentId.s || call.auth.value == call.params.childId.s)
  }

  /** The refusal `e`, after the limiter's record was updated and with nothing else written. */
  predicate RefusedAfterSlot(s: Snapshot, call: LinkCall, now: int, faults: Faults, e: Error)
    requires EntryGuard(call).None?
  {
    CreateLink(s, call, now, faults) == Outcome(Err(e), AfterRateCheck(s, call.auth.value, now, faults.rateLimit))
  }

  /** Whatever the checks after the limiter refuse with is the call's error, written
      after the limiter's record and with nothing else. */
  lemma GuardRefusal(s: Snapshot, call: LinkCall, now: int, faults: Faults)
    requires ReachesStateChecks(s, call, now, faults)
    requires StateGuard(s, call.auth.value, call.params.parentId.s, call.params.childId.s, CodeOf(call.params), now).Some?
    ensures RefusedAfterSlot(s, call, now, faults,
                             StateGuard(s, call.auth.value, call.params.parentId.s, call.params.childId.s, CodeOf(call.params), now).value)
  {
    var caller, p, c, code := call.auth.value, call.params.parentId.s, call.params.childId.s, CodeOf(call.params);
    var s1 := AfterRateCheck(s, caller, now, faults.rateLimit);
    RateCheckFrame(s, caller, now, faults.rateLimit);
    assert s1 == s.(rateLimits := s1.rateLimits);
    StateGuardIgnoresRateLimits(s, s1.rateLimits, caller, p, c, code, now);
    assert Linked(s1, caller, p, c, code, now, faults) ==
             Outcome(Err(StateGuard(s, caller, p, c, code, now).value), s1);
  }

  /** A code no document holds: `not-found`. */
  lemma UnknownCodeRefused(s: Snapshot, call: LinkCall, now: int, faults: Faults)
    requires ReachesStateChecks(s, call, now, faults)
    requires CodeOf(call.params).Some? && FirstCode(s.linkCodes, CodeOf(call.params).value).None?
    ensures RefusedAfterSlot(s, call, now, faults, NotFound)
  {
    var caller, p, c, code := call.auth.value, call.params.parentId.s, call.params.childId.s, CodeOf(call.params);
    assert StateGuard(s, caller, p, c, code, now) == Some(NotFound);
    GuardRefusal(s, call, now, faults);
  }

  /** A code whose `expiresAt` has passed: `failed-precondition`. */
  lemma ExpiredCodeRefused(s: Snapshot, call: LinkCall, now: int, faults: Faults)
    requires ReachesStateChecks(s, call, now, faults)
    requires CodeOf(call.params).Some?
    requires var k := FirstCode(s.linkCodes, CodeOf(call.params).value);
             k.Some? && s.linkCodes[k.value].expiresAt.Some? && s.linkCodes[k.value].expiresAt.value < now
    ensures RefusedAfterSlot(s, call, now, faults, FailedPrecondition)
  {
    var caller, p, c, code := call.auth.value, call.params.parentId.s, call.params.childId.s, CodeOf(call.params);
    assert StateGuard(s, caller, p, c, code, now) == Some(FailedPrecondition);
    GuardRefusal(s, call, now, faults);
  }

  /** A live code created by neither the parent nor the child: `permission-denied`. */
  lemma ForeignCodeRefused(s: Snapshot, call: LinkCall, now: int, faults: Faults)
    requires ReachesStateChecks(s, call, now, faults)
    requires CodeOf(call.params).Some?
    requires var k := FirstCode(s.linkCodes, CodeOf(call.params).value);
             && k.Some?
             && (s.linkCodes[k.value].expiresAt.None? || s.linkCodes[k.value].expiresAt.value >= now)
             && s.linkCodes[k.value].createdBy != call.params.parentId.s
             && s.linkCodes[k.value].createdBy != call.params.childId.s
    ensures RefusedAfterSlot(s, call, now, faults, PermissionDenied)
  {
    var caller, p, c, code := call.auth.value, call.params.parentId.s, call.params.childId.s, CodeOf(call.params);
    assert StateGuard(s, caller, p, c, code, now) == Some(PermissionDenied);
    GuardRefusal(s, call, now, faults);
  }

  /** An accepted code, or none, but the parent or the child has no user document:
      `not-found`. */
  lemma MissingUserRefused(s: Snapshot, call: LinkCall, now: int, faults: Faults)
    requires ReachesStateChecks(s, call, now, faults)
    requires CodeAccepted(s.linkCodes, call.params.parentId.s, call.params.childId.s, CodeOf(call.params), now)
    requires call.params.parentId.s !in s.users || call.params.childId.s !in s.users
    ensures RefusedAfterSlot(s, call, now, faults, NotFound)
  {
    var caller, p, c, code := call.auth.value, call.params.parentId.s, call.params.childId.s, CodeOf(call.params);
    assert StateGuard(s, caller, p, c, code, now) == Some(NotFound);
    GuardRefusal(s, call, now, faults);
  }

  /** Both users exist and the pair is already linked, by an approved link or by a legacy
      record in this direction: `already-exists`. */
  lemma AlreadyLinkedRefused(s: Snapshot, call: LinkCall, now: int, faults: Faults)
    requires ReachesStateChecks(s, call, now, faults)
    requires CodeAccepted(s.linkCodes, call.params.parentId.s, call.params.childId.s, CodeOf(call.params), now)
    requires call.params.parentId.s in s.users && call.params.childId.s in s.users
    requires var id := LinkId(call.params.parentId.s, call.params.childId.s);
             (id in s.parentChildLinks && s.parentChildLinks[id].status == Approved) ||
             HasCompatLink(s.parentChildren, call.params.parentId.s, call.params.childId.s)
    ensures RefusedAfterSlot(s, call, now, faults, AlreadyExists)
  {
    LinkedPairGuard(s, call.auth.value, call.params.parentId.s, call.params.childId.s, CodeOf(call.params), now);
    GuardRefusal(s, call, now, faults);
  }

  /** The guard's verdict on an already linked pair whose earlier checks pass. */
  lemma LinkedPairGuard(s: Snapshot, caller: string, p: string, c: string, code: Option<string>, now: int)
    requires (caller == p || caller == c) && CodeAccepted(s.linkCodes, p, c, code, now)
    requires p in s.users && c in s.users
    requires (LinkId(p, c) in s.parentChildLinks && s.parentChildLinks[LinkId(p, c)].status == Approved) ||
             HasCompatLink(s.parentChildren, p, c)
    ensures StateGuard(s, caller, p, c, code, now) == Some(AlreadyExists)
  {
    var found := if code.Some? then FirstCode(s.linkCodes, code.value) else None;
    assert !(code.Some? && found.None?);
  }

  /** After a success, the pair's link is approved. */
  lemma SuccessLinksPair(s: Snapshot, call: LinkCall, now: int, faults: Faults)
    requires CreateLink(s, call, now, faults).result.Ok?
    ensures var after := CreateLink(s, call, now, faults).after;
            var id := LinkId(call.params.parentId.s, call.params.childId.s);
            id in after.parentChildLinks && after.parentChildLinks[id].status == Approved
  {
    var s1 := AfterRateCheck(s, call.auth.value, now, faults.rateLimit);
    SuccessWrites(s1, call.auth.value, call.params.parentId.s, call.params.childId.s, CodeOf(call.params), now, faults);
  }

  /** Once a pair is linked, no later call for the same parent and child can succeed,
      whoever makes it and whatever the faults. */
  lemma RelinkRefused(s: Snapshot, call: LinkCall, now: int, faults: Faults, call2: LinkCall, now2: int, faults2: Faults)
    requires CreateLink(s, call, now, faults).result.Ok?
    requires call2.params.parentId == call.params.parentId && call2.params.childId == call.params.childId
    ensures CreateLink(CreateLink(s, call, now, faults).after, call2, now2, faults2).result.Err?
  {
    var s2 := CreateLink(s, call, now, faults).after;
    SuccessLinksPair(s, call, now, faults);
    SuccessIff(s2, call2, now2, faults2);
  }

  /** A later call for a linked pair that passes every check before the link check is
      refused with `already-exists`, and only the limiter's record is written. */
  lemma RelinkAlreadyExists(s: Snapshot, call: LinkCall, now: int, faults: Faults, call2: LinkCall, now2: int, faults2: Faults)
    requires CreateLink(s, call, now, faults).result.Ok?
    requires call2.params.parentId == call.params.parentId && call2.params.childId == call.params.childId
    requires var s2 := CreateLink(s, call, now, faults).after;
             && ReachesStateChecks(s2, call2, now2, faults2)
             && CodeAccepted(s2.linkCodes, call2.params.parentId.s, call2.params.childId.s, CodeOf(call2.params), now2)
    ensures RefusedAfterSlot(CreateLink(s, call, now, faults).after, call2, now2, faults2, AlreadyExists)
  {
    SuccessLinksPair(s, call, now, faults);
    SuccessKeepsUsers(s, call, now, faults);
    AlreadyLinkedRefused(CreateLink(s, call, now, faults).after, call2, now2, faults2);
  }

  /** Both users of a successful link still exist afterwards. */
  lemma SuccessKeepsUsers(s: Snapshot, call: LinkCall, now: int, faults: Faults)
    requires CreateLink(s, call, now, faults).result.Ok?
    ensures var after := CreateLink(s, call, now, faults).after;
            call.params.parentId.s in after.users && call.params.childId.s in after.users
  {
    var s1 := AfterRateCheck(s, call.auth.value, now, faults.rateLimit);
    var p := call.params.parentId.s;
    var c := call.params.childId.s;
    SuccessWrites(s1, call.auth.value, p, c, CodeOf(call.params), now, faults);
    StateGuardPasses(s1, call.auth.value, p, c, CodeOf(call.params), now);
  }

  /** A code is accepted or refused regardless of its `used` flag: marking it used does
      not change the verdict of any later check, so a code can be used again. */
  lemma UsedFlagIgnored(s: Snapshot, caller: string, p: string, c: string, code: Option<string>, now: int,
                        priorCaller: string, priorNow: int)
    ensures var used := s.(linkCodes := MarkCodeUsed(s.linkCodes, code, priorCaller, priorNow));
            StateGuard(used, caller, p, c, code, now) == StateGuard(s, caller, p, c, code, now)
  {
    var marked := MarkCodeUsed(s.linkCodes, code, priorCaller, priorNow);
    if code.Some? {
      var found := FirstCode(s.linkCodes, code.value);
      if found.Some? {
        FirstCodeDependsOnCodes(marked, s.linkCodes, code.value);
      }
    }
  }

  lemma {:induction false} FirstCodeDependsOnCodes(a: seq<LinkCode>, b: seq<LinkCode>, code: string)
    requires |a| == |b| && forall j :: 0 <= j < |a| ==> a[j].code == b[j].code
    ensures FirstCode(a, code) == FirstCode(b, code)
  {
    if a != [] {
      FirstCodeDependsOnCodes(a[1..], b[1..], code);
    }
  }

  /** The contact fan-out adds the parent to exactly the contacts that hold the child,
      keeps every contact's users, and adds or removes no contact. */
  lemma FanOutMeaning(contacts: map<string, Contact>, p: string, c: string)
    ensures FanOut(contacts, p, c).Keys == contacts.Keys
    ensures forall k :: k in contacts ==>
              && FanOut(contacts, p, c)[k].users == contacts[k].users
              && (c in contacts[k].users ==> p in FanOut(contacts, p, c)[k].approvedParentIds)
              && (c !in contacts[k].users ==> FanOut(contacts, p, c)[k] == contacts[k])
              && (forall q :: q in contacts[k].approvedParentIds ==> q in FanOut(contacts, p, c)[k].approvedParentIds)
  {
  }

  /** The contact fan-out is best effort: whether it fails does not change the result,
      and it touches nothing but contacts. */
  lemma FanOutBestEffort(s: Snapshot, caller: string, p: string, c: string, code: Option<string>, now: int, faults: Faults)
    ensures var ok := Linked(s, caller, p, c, code, now, faults.(contactFanOut := false));
            var failed := Linked(s, caller, p, c, code, now, faults.(contactFanOut := true));
            && ok.result == failed.result
            && ok.after.(contacts := failed.after.contacts) == failed.after
            && (ok.result.Ok? ==> ok.after.contacts == FanOut(s.contacts, p, c) && failed.after.contacts == s.contacts)
  {
  }

  // ---------------------------------------------------------------------------
  // The function as written
  // ---------------------------------------------------------------------------

  /** The `code` property of an `HttpsError` of each kind. */
  function HttpsCode(e: Error): string {
    match e
    case Unauthenticated => "unauthenticated"
    case InvalidArgument => "invalid-argument"
    case ResourceExhausted(_) => "resource-exhausted"
    case PermissionDenied => "permission-denied"
    case NotFound => "not-found"
    case FailedPrecondition => "failed-precondition"
    case AlreadyExists => "already-exists"
    case Internal => "internal"
  }

  predicate StartsWith(s: string, prefix: string) {
    |prefix| <= |s| && s[..|prefix|] == prefix
  }

  /** The handler's test `error.code && error.code.startsWith('functions/')`. */
  function RethrownAsWritten(e: Error): Error {
    if StartsWith(HttpsCode(e), "functions/") then e else Internal
  }

  /** No error kind's code has the prefix the handler looks for. */
  lemma HandlerNeverRethrows(e: Error)
    ensures RethrownAsWritten(e) == Internal
  {
    var code := HttpsCode(e);
    assert |code| > 1 && code[1] != 'u';
    if |"functions/"| <= |code| {
      assert code[..10][1] == code[1];
    }
  }

  /** `createParentChildLink` as written: `admin` is not bound in the module, so once all
      checks pass, building the batch throws a `ReferenceError` before the commit; and
      every error, of whatever kind, reaches the caller through the handler's test. */
  function CreateLinkAsWritten(s: Snapshot, call: LinkCall, now: int, faults: Faults): Outcome {
    if EntryGuard(call).Some? then Outcome(Err(RethrownAsWritten(EntryGuard(call).value)), s)
    else
      var caller := call.auth.value;
      var p := call.params.parentId.s;
      var c := call.params.childId.s;
      var d := RateDecision(s, caller, now, faults.rateLimit);
      var s1 := AfterRateCheck(s, caller, now, faults.rateLimit);
      if !d.allowed then Outcome(Err(RethrownAsWritten(ResourceExhausted(RetryAfter(d)))), s1)
      else if StateGuard(s1, caller, p, c, CodeOf(call.params), now).Some? then
        Outcome(Err(RethrownAsWritten(StateGuard(s1, caller, p, c, CodeOf(call.params), now).value)), s1)
      else Outcome(Err(RethrownAsWritten(Internal)), s1)
  }

  /** As written, the function never links anyone and every failure is reported as
      `internal`: it writes nothing but the rate-limit slot. */
  lemma AsWrittenAlwaysInternal(s: Snapshot, call: LinkCall, now: int, faults: Faults)
    ensures CreateLinkAsWritten(s, call, now, faults).result == Err(Internal)
    ensures CreateLinkAsWritten(s, call, now, faults).after.(rateLimits := s.rateLimits) == s
  {
    HandlerNeverRethrows(Internal);
    if EntryGuard(call).Some? {
      HandlerNeverRethrows(EntryGuard(call).value);
    } else {
      var caller := call.auth.value;
      RateCheckFrame(s, caller, now, faults.rateLimit);
      HandlerNeverRethrows(ResourceExhausted(RetryAfter(RateDecision(s, caller, now, faults.rateLimit))));
      var s1 := AfterRateCheck(s, caller, now, faults.rateLimit);
      var g := StateGuard(s1, caller, call.params.parentId.s, call.params.childId.s, CodeOf(call.params), now);
      if g.Some? {
        HandlerNeverRethrows(g.value);
      }
    }
  }

  /** The store of the example below: two users and nothing else. */
  function ExampleStore(): Snapshot {
    Snapshot(map[], map["p" := User("Ana", "parent", ""), "c" := User("Leo", "child", "")],
             map[], [], [], map[], [], map[], map[], map[])
  }

  /** The corrected function does link where the one as written fails: the parent "p"
      links the child "c" without a code. */
  lemma CorrectedLinksWhereAsWrittenFails()
    ensures CreateLink(ExampleStore(), LinkCall(true, Some("p"), LinkParams(Str("p"), Str("c"), Undefined)), 0,
                       Faults(false, false, false)).result == Ok(LinkResult("p_c", "p", "c", "Ana", "Leo", 0))
    ensures CreateLinkAsWritten(ExampleStore(), LinkCall(true, Some("p"), LinkParams(Str("p"), Str("c"), Undefined)), 0,
                                Faults(false, false, false)).result == Err(Internal)
  {
    var call := LinkCall(true, Some("p"), LinkParams(Str("p"), Str("c"), Undefined));
    var s := ExampleStore();
    var faults := Faults(false, false, false);
    ExampleCallIsValid(call);
    ExampleCallAdmitted(s);
    var s1 := AfterRateCheck(s, "p", 0, false);
    assert CreateLink(s, call, 0, faults) == Linked(s1, "p", "p", "c", None, 0, faults);
    assert LinkId("p", "c") == "p_c";
    AsWrittenAlwaysInternal(s, call, 0, faults);
  }

  lemma ExampleCallIsValid(call: LinkCall)
    requires call == LinkCall(true, Some("p"), LinkParams(Str("p"), Str("c"), Undefined))
    ensures EntryGuard(call).None? && CodeOf(call.params).None?
  {
    IsValidStringMeans(Str("p"), 128);
    IsValidStringMeans(Str("c"), 128);
    assert !IsWhitespace("p"[0]) && !IsWhitespace("c"[0]);
    assert ValidateLinkParams(call.params).Valid?;
  }

  lemma ExampleCallAdmitted(s: Snapshot)
    requires s == ExampleStore()
    ensures RateDecision(s, "p", 0, false).allowed
    ensures AfterRateCheck(s, "p", 0, false).users == s.users
    ensures StateGuard(AfterRateCheck(s, "p", 0, false), "p", "p", "c", None, 0).None?
  {
    assert AfterRateCheck(s, "p", 0, false) == s.(rateLimits := map[DocId("p", CREATE_LINK_ACTION) := RateRecord([0], "p", CREATE_LINK_ACTION, 0, None)]);
    assert !HasCompatLink([], "p", "c");
    StateGuardIgnoresRateLimits(s, AfterRateCheck(s, "p", 0, false).rateLimits, "p", "p", "c", None, 0);
    assert StateGuard(s, "p", "p", "c", None, 0).None?;
  }
}
