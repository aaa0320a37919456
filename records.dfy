/** The documents of the backend's collections, as values, and a snapshot of the whole
    datastore. Optional fields that the source may leave unset are `Option`s; string
    fields that the source tests for truthiness use "" for "absent". */
module Records {
  import opened Outcomes

  /** The approval vocabulary shared by links, whitelist entries, contacts, contact
      requests and permission requests. */
  datatype Status = Pending | Approved | Rejected

  /** A rate-limit policy: at most `maxRequests` in any trailing window of `windowMs`. */
  datatype Limits = Limits(maxRequests: int, windowMs: int)

  /** A `rate_limits` document. `lastRequest` is only written by an admitted request on an
      existing record; the first request writes `createdAt` instead. */
  datatype RateRecord = RateRecord(
    requests: seq<int>,
    userId: string,
    action: string,
    createdAt: int,
    lastRequest: Option<int>)

  /** A `users` document; `role` and `fcmToken` are "" when unset. */
  datatype User = User(name: string, role: string, fcmToken: string)

  /** A `parent_child_links` document, stored under `parentId_childId`. */
  datatype Link = Link(parentId: string, childId: string, status: Status, linkedAt: int, createdBy: string)

  /** A `parent_children` document (the legacy collection, auto-id). */
  datatype CompatLink = CompatLink(parentId: string, childId: string, linkedAt: int, createdBy: string)

  /** A `whitelist` document (auto-id). */
  datatype WhitelistEntry = WhitelistEntry(
    childId: string,
    contactId: string,
    status: Status,
    approvedBy: string,
    approvedAt: int,
    reason: string)

  /** A `link_codes` document. */
  datatype LinkCode = LinkCode(
    code: string,
    createdBy: string,
    expiresAt: Option<int>,
    used: bool,
    usedAt: Option<int>,
    usedBy: Option<string>)

  /** A `contacts` document; `approvedParentIds` is [] when the field is unset. */
  datatype Contact = Contact(
    users: seq<string>,
    user1Name: string,
    user2Name: string,
    status: Status,
    autoApproved: bool,
    addedAt: int,
    addedBy: string,
    addedVia: string,
    approvedParentIds: seq<string>,
    approvedForGroup: bool,
    approvedAt: Option<int>,
    rejectedAt: Option<int>,
    rejectedBy: Option<string>)

  /** A `contact_requests` document; `contactDocId` is "" when unset. */
  datatype ContactRequest = ContactRequest(
    childId: string,
    contactId: string,
    childName: string,
    contactName: string,
    status: Status,
    parentId: Option<string>,
    contactDocId: string,
    requestedAt: int,
    updatedAt: Option<int>,
    updatedBy: Option<string>,
    approvedAt: Option<int>,
    rejectedAt: Option<int>,
    rejectedBy: Option<string>)

  /** A `permission_requests` document; `contactDocId` is "" when unset. */
  datatype PermissionRequest = PermissionRequest(
    parentId: Option<string>,
    status: Status,
    contactDocId: string,
    approvedAt: Option<int>,
    approvedBy: Option<string>,
    rejectedAt: Option<int>,
    rejectedBy: Option<string>,
    updatedAt: Option<int>,
    updatedBy: Option<string>)

  /** Every collection the core reads or writes. Auto-id collections that are only ever
      appended to and scanned are sequences; the others are maps from document id. */
  datatype Snapshot = Snapshot(
    rateLimits: map<string, RateRecord>,
    users: map<string, User>,
    parentChildLinks: map<string, Link>,
    parentChildren: seq<CompatLink>,
    whitelist: seq<WhitelistEntry>,
    userLocations: map<string, seq<string>>,
    linkCodes: seq<LinkCode>,
    contacts: map<string, Contact>,
    contactRequests: map<string, ContactRequest>,
    permissionRequests: map<string, PermissionRequest>)

  /** `FieldValue.arrayUnion(x)` applied to an array field. */
  function ArrayUnion(xs: seq<string>, x: string): (r: seq<string>)
    ensures x in r
    ensures forall y :: y in r <==> y in xs || y == x
    ensures x in xs ==> r == xs
  {
    if x in xs then xs else xs + [x]
  }

  function Lookup<K, V>(m: map<K, V>, k: K): Option<V> {
    if k in m then Some(m[k]) else None
  }
}
