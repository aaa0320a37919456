# Talia: parental-control backend and camera frame path, modelled in Dafny

Talia is a chat app for children whose parents approve who they may talk to. This
project models the decision logic of its Cloud Functions backend
(`functions/index.js`), the stand-alone rate-limit exercise beside it
(`functions/test-rate-limit.js`), and the frame repacking of its Android AR camera
controller (`DeepARCameraController.kt`). It proves properties of each model.

The datastore is the class `Store.Db`, with one field per Firestore collection.
`Db.Snap()` returns the whole store as a `Records.Snapshot` value. Each callable or
scheduled function has two parts:

- a method that updates the store in place;
- a specification function over snapshots, of which the method's `ensures` says
  `Spec(old(db.Snap()), ...) == Outcome(result, db.Snap())`.

The lemmas state what the backend promises about those specification functions:

- the order of the guards, and which writes each one prevents;
- the exact write set of a success;
- the contact and permission state machines;
- the sliding-window bound of the limiter.

Clock readings, generated document ids and infrastructure failures are parameters:
`now`, `ids`/`newId`, and `Faults` or `fault`. The camera controller is a class whose
fields `lensFacing`, `frameCount` and `lastLogTime` are updated by its methods.
`ImageProxy` is a class with a `closed` flag. The NV21 buffer is an `array` filled by
loops with a running position, and those loops are proved against recursive
functions over the plane buffers.

Modules, one per component:

| module | file | component |
|---|---|---|
| `Outcomes` | outcomes.dfy | `Option`, `Result` and the `HttpsError` codes |
| `JsValues` | jsvalues.dfy | JavaScript values, truthiness, `trim`, default string sort, `includes` |
| `Validation` | validation.dfy | the input validators |
| `Records`, `Store` | records.dfy, store.dfy | documents, snapshot, the `Db` class |
| `Queries` | queries.dfy | which document a query's `docs[0]` is |
| `RateLimit` | rate_limit.dfy | `checkRateLimit` and `RATE_LIMITS` |
| `RateLimitTest` | rate_limit_test.dfy | `testRateLimit` and `runTests` |
| `ParentChildLink` | link.dfy | `createParentChildLink` |
| `ContactRequests` | contacts.dfy | `getLinkedParents`, `createContactRequest`, `updateContactRequestStatus` |
| `GroupPermissions` | group_permissions.dfy | `approveGroupPermission`, `updateGroupPermissionStatus` |
| `Notifications` | notifications.dfy | data payload and delivery settings of a push |
| `Bullying` | bullying.dfy | `detectBullying` |
| `Cleanup` | cleanup.dfy | `cleanupExpiredStories`, `cleanupOldRateLimits`, batching, storage path |
| `Camera` | camera.dfy | NV21 packing, `processImageProxy`, `switchCamera` |

Where the code and its comments disagree, the model follows the code:

- A link code's `used` flag is written but never checked, so a code can be reused
  (`ParentChildLink.UsedFlagIgnored`).
- A rejection cascades only to the contact's still pending requests. Requests that
  were already approved stay approved (`ContactRequests.RejectionCascade`).
- A stale contact is deleted before the remaining checks of `createContactRequest`
  run, so it stays deleted when one of them then refuses
  (`ContactRequests.StaleContactDeletedFirst`).

## Model

| member | source | states |
|---|---|---|
| `Validation.IsValidStringMeans` | functions/index.js:111-115 | a value is a valid string iff it is a string whose `length`, counted in UTF-16 code units, is within the limit and that has a character which is not whitespace; for a string without characters beyond the Basic Multilingual Plane that length is its number of characters |
| `Validation.AstralStringsCountTwice` | functions/index.js:111-115 | a valid string made only of characters beyond the Basic Multilingual Plane has at most half the limit in characters, since each counts two units |
| `Validation.PatternLength` | functions/index.js:153-158 | a name matching the channel pattern is as many UTF-16 units long as it has characters |
| `Validation.IsValidNumberMeans` | functions/index.js:124-129 | a value is a valid number iff it is a finite number within both bounds: NaN and the infinities are refused |
| `Validation.FalsyIsNotValidString` | functions/index.js:139-139 | a falsy value is never a valid string, so the `!x` guard in front of each string check changes no verdict |
| `Validation.ValidateAgoraTokenParams` | functions/index.js:136-162 | the channel-name error iff the name is not a valid string of at most 64; the uid error iff the name passes and the uid is not a number in 0..4294967295; valid iff the name has only `[a-zA-Z0-9_-]` characters, at most 64 of them, and the uid is in range |
| `Validation.PatternIsNotBlank` | functions/index.js:153-158 | a name matching the channel pattern is never blank |
| `Validation.ValidateReportParams` | functions/index.js:169-189 | valid iff the child id is a valid string of at most 128 and `daysBack` is absent or a number from 1 to 90; the child-id error iff the id is invalid; no other error |
| `Validation.ValidateLinkParams` | functions/index.js:196-229 | errors in source order: parent id, then child id, then a code that is not a valid string of at most 20 UTF-16 units; valid iff both ids are valid strings of at most 128, the code is absent or valid, and the ids differ |
| `Validation.ValidLinkCodeTruthiness` | functions/index.js:213-215 | once the parameters are valid, `if (code)` holds iff a code string was sent, of 1 to 20 UTF-16 units and so of at most 20 characters |
| `Validation.NullCodeRefused` | functions/index.js:213-218 | an explicit `null` code is refused as invalid, not treated as absent |
| `JsValues.TrimStart` | functions/index.js:113-113 | the result is a suffix of the input, everything dropped is whitespace, and the result does not start with whitespace |
| `JsValues.TrimEnd` | functions/index.js:113-113 | the result is a prefix of the input, everything dropped is whitespace, and the result does not end with whitespace |
| `JsValues.TrimmedNonEmpty` | functions/index.js:113-113 | `s.trim().length > 0` iff `s` has a character that is not whitespace |
| `JsValues.Utf16Length` | functions/index.js:113-113 | `s.length` counts between one and two units per character |
| `JsValues.BmpUtf16Length` | functions/index.js:113-113 | without characters beyond the Basic Multilingual Plane, `s.length` is the number of characters |
| `JsValues.AstralUtf16Length` | functions/index.js:113-113 | a string of characters beyond the Basic Multilingual Plane is twice as many units long as it has characters |
| `JsValues.SortPair` | functions/index.js:1598-1598 | `[a, b].sort()` is a permutation of the two ids in ascending string order |
| `JsValues.SortPairCanonical` | functions/index.js:1598-1598 | the sorted pair does not depend on the order of the two ids |
| `JsValues.IndexOfFrom` | functions/index.js:991-991 | the result is the first position at or after `from` where the keyword occurs, and `None` iff it occurs nowhere there |
| `JsValues.IncludesIff` | functions/index.js:991-991 | `includes` holds iff the keyword occurs at some position |
| `JsValues.StrLeTotal` | functions/index.js:1598-1598 | the string order used by the sort is total |
| `JsValues.StrLeAntisymmetric` | functions/index.js:1598-1598 | two strings ordered both ways are equal |
| `JsValues.StrLeTransitive` | functions/index.js:1598-1598 | the string order is transitive |
| `Queries.FirstId` | functions/index.js:1607-1607 | the first document of a non-empty query result is one of its ids and no greater than any other |
| `Queries.FirstIdUnique` | functions/index.js:1607-1607 | an id that is no greater than every id of the set is the first one |
| `Queries.FindFirstId` | functions/index.js:1998-2006 | one pass over the matching ids finds the first one |
| `Records.ArrayUnion` | functions/index.js:1214-1214 | `arrayUnion(x)` leaves `x` in the array, adds nothing else, and changes nothing if `x` was there |
| `RateLimit.DocIdInjective` | functions/index.js:239-239 | for action names without `_`, the record id `${userId}_${action}` determines both the user and the action |
| `RateLimit.TableActionsHaveNoUnderscore` | functions/index.js:290-303 | no action name of the policy table contains `_` |
| `RateLimit.InWindow` | functions/index.js:257-257 | the filter keeps only entries newer than the window start, never more than it was given |
| `RateLimit.InWindowMembers` | functions/index.js:257-257 | an entry is kept iff it was stored and is newer than the window start |
| `RateLimit.InWindowExtremes` | functions/index.js:257-257 | nothing is dropped while every entry is inside the window; nothing is kept once every entry has left it |
| `RateLimit.InWindowAscending` | functions/index.js:257-257 | the filter keeps the stored ascending order |
| `RateLimit.CeilDiv` | functions/index.js:261-261 | `Math.ceil(n / d)` is the least `q` with `n <= d * q` |
| `RateLimit.CheckRateLimit` | functions/index.js:235-288 | the verdict and the record written are those of the check on the record read, and no other record changes |
| `RateLimit.RefusalIsExactlyAFullWindow` | functions/index.js:259-270 | refused iff there is no fault, the record exists and its in-window count is at least `maxRequests` and positive; a refusal writes nothing, and its retry delay is the rounded-up seconds until the first in-window entry leaves the window, which is at least 1 |
| `RateLimit.MissingRecordAdmits` | functions/index.js:246-254 | a missing record becomes `[now]` with `createdAt = now`, and the request is admitted |
| `RateLimit.AdmissionStoresWindowPlusNow` | functions/index.js:272-279 | an admission stores exactly the in-window entries followed by `now`, sets `lastRequest`, and the stored list never exceeds `maxRequests` |
| `RateLimit.FailOpen` | functions/index.js:283-287 | an error inside the transaction admits the request and writes nothing |
| `RateLimit.CheckPreservesBound` | functions/index.js:259-279 | with a positive limit, a record holding at most `maxRequests` entries still does so after any check, so no window ever counts more |
| `RateLimit.CheckKeepsAscending` | functions/index.js:257-276 | with a clock that does not go backwards, the stored timestamps stay ascending, so the entry the delay is computed from is the oldest in the window |
| `RateLimit.WindowElapsedAdmits` | functions/index.js:257-279 | once every stored entry has left the window, a request is admitted and the record restarts from `now` alone |
| `RateLimitTest.TestTableMatchesProduction` | functions/test-rate-limit.js:23-36 | the script's limits table equals the production table: 5 per hour, 20 per minute, 10 per hour |
| `RateLimitTest.TestRateLimit` | functions/test-rate-limit.js:41-100 | the reported result and the record written are those of the twin's check, and no other record changes |
| `RateLimitTest.TwinAgreesWithProduction` | functions/test-rate-limit.js:51-84 | with a positive limit and no fault, the twin is admitted or refused exactly when production is, with the same delay and the same write; its count is the stored length after an admission (1 for a new record) and the in-window count after a refusal |
| `RateLimitTest.TwinFailsClosed` | functions/test-rate-limit.js:96-99 | on a transaction error, or the crash on an empty window with a non-positive limit, the twin refuses and writes nothing while production admits |
| `RateLimitTest.BurstRequest` | functions/test-rate-limit.js:41-84 | within one window, the i-th request on a fresh record is admitted iff `i < maxRequests`, reports count `min(i+1, maxRequests)`, and leaves the admitted times stored |
| `RateLimitTest.RunBurst` | functions/test-rate-limit.js:114-124 | one loop of requests touches only its own record; on a fresh record within one window, exactly the first `maxRequests` are admitted, each count is the window's size, and the record keeps the admitted times |
| `RateLimitTest.TestKeysDistinct` | functions/test-rate-limit.js:164-166 | the three record ids the test uses for one user are distinct |
| `RateLimitTest.RunTests` | functions/test-rate-limit.js:105-171 | 25, 8 and 12 requests give 25, 8 and 12 results; within one window exactly the requests beyond 20, 5 and 10 are refused; afterwards the store is as before minus the three test records |
| `ParentChildLink.FirstCode` | functions/index.js:1085-1088 | the code query's first result is the first stored code equal to the one sent, and `None` iff no code matches |
| `ParentChildLink.RefusalHasDelay` | functions/index.js:1063-1071 | a refusal by the limiter always comes with a retry delay |
| `ParentChildLink.InvalidParamsRefused` | functions/index.js:1051-1055 | invalid parameters from a signed-in caller past App Check are refused with `invalid-argument`, and nothing is written |
| `ParentChildLink.LimiterRefusalReported` | functions/index.js:1058-1071 | a refusal by the limiter is `resource-exhausted` with the limiter's retry delay, and only the limiter's record is written |
| `ParentChildLink.UnknownCodeRefused` | functions/index.js:1082-1093 | for the parent or the child, a sent code that no document holds is refused with `not-found`, after the limiter's record was updated and with nothing else written |
| `ParentChildLink.ExpiredCodeRefused` | functions/index.js:1095-1101 | a found code whose `expiresAt` is before now is refused with `failed-precondition`, writing only the limiter's record |
| `ParentChildLink.ForeignCodeRefused` | functions/index.js:1103-1107 | a live code created by neither the parent nor the child is refused with `permission-denied`, writing only the limiter's record |
| `ParentChildLink.MissingUserRefused` | functions/index.js:1112-1126 | with the code accepted or none sent, a parent or child without a user document is refused with `not-found`, writing only the limiter's record |
| `ParentChildLink.AlreadyLinkedRefused` | functions/index.js:1133-1157 | with both users present, an approved `parentId_childId` link or a legacy record in that direction is refused with `already-exists`, writing only the limiter's record |
| `ParentChildLink.CreateParentChildLink` | functions/index.js:1024-1284 | the callable's result and new store are those of the corrected specification of the whole function |
| `ParentChildLink.LinkAfterRateCheck` | functions/index.js:1076-1263 | the checks after the limiter, the batch and the fan-out give the specified result and store |
| `ParentChildLink.CommitLinkBatch` | functions/index.js:1160-1239 | the batch's writes are exactly the specified write set |
| `ParentChildLink.AddParentToContacts` | functions/index.js:1244-1259 | the fan-out loop leaves every contact as the fan-out function says |
| `ParentChildLink.EntryRejectionWritesNothing` | functions/index.js:1031-1055 | a failure of App Check, sign-in or validation writes nothing; it is `unauthenticated` iff App Check or sign-in failed |
| `ParentChildLink.RateCheckFrame` | functions/index.js:1058-1062 | the rate check changes nothing but the limiter's records |
| `ParentChildLink.LinkedErrorsWriteNothing` | functions/index.js:1076-1239 | every refusal after the limiter, and a failed commit, writes nothing |
| `ParentChildLink.ErrorsOnlyConsumeRateSlot` | functions/index.js:1024-1239 | no error leaves any trace but the limiter's record: the batch is all or nothing |
| `ParentChildLink.StrangerConsumesSlot` | functions/index.js:1058-1079 | a valid call by someone who is neither parent nor child is refused with `permission-denied`, after the limiter's record was updated |
| `ParentChildLink.StateGuardPasses` | functions/index.js:1076-1157 | the checks after the limiter pass iff the caller is the parent or the child; a sent code exists, has not expired and was created by one of them; both users exist; and the pair is linked neither as an approved `parentId_childId` link nor by a legacy record in that direction |
| `ParentChildLink.StateGuardIgnoresRateLimits` | functions/index.js:1076-1157 | those checks do not read the limiter's records |
| `ParentChildLink.LinkedOkIff` | functions/index.js:1076-1239 | after the limiter, the call succeeds iff the checks pass and the commit does |
| `ParentChildLink.SuccessIff` | functions/index.js:1024-1239 | a call succeeds iff App Check passes, the caller is signed in, the parameters are valid, the limiter admits, the later checks pass and the commit succeeds |
| `ParentChildLink.SuccessWrites` | functions/index.js:1160-1274 | a success writes the approved link under `parentId_childId`, one legacy record, the two mirrored whitelist entries approved by the parent, the parent among the child's approved parents, and the given code's document marked used (codes untouched without one); users and limiter untouched; the result names both users |
| `ParentChildLink.SuccessLinksPair` | functions/index.js:1164-1171 | after a success the pair's link is approved |
| `ParentChildLink.RelinkRefused` | functions/index.js:1139-1157 | once a pair is linked, no call for the same parent and child can succeed |
| `ParentChildLink.RelinkAlreadyExists` | functions/index.js:1133-1157 | once a pair is linked, a later call for it that the limiter admits, made by the parent or the child with an acceptable code or none, is refused with `already-exists` and writes only the limiter's record |
| `ParentChildLink.SuccessKeepsUsers` | functions/index.js:1112-1126 | after a success both users still exist |
| `ParentChildLink.UsedFlagIgnored` | functions/index.js:1082-1110 | marking a code used changes no later verdict: codes can be used again |
| `ParentChildLink.FirstCodeDependsOnCodes` | functions/index.js:1085-1088 | which code document the query finds depends only on the stored code strings |
| `ParentChildLink.FanOutMeaning` | functions/index.js:1244-1259 | the fan-out adds the parent to exactly the contacts that hold the child, keeps their users and earlier parents, and adds or removes no contact |
| `ParentChildLink.FanOutBestEffort` | functions/index.js:1260-1263 | a failing fan-out changes neither the result nor anything but contacts |
| `ParentChildLink.HandlerNeverRethrows` | functions/index.js:1279-1282 | no error code has the `functions/` prefix the handler tests, so every error is rewrapped |
| `ParentChildLink.AsWrittenAlwaysInternal` | functions/index.js:1214-1214 | as written, every call fails with `internal` and writes nothing but the limiter's record |
| `ParentChildLink.CorrectedLinksWhereAsWrittenFails` | functions/index.js:1214-1254 | for a parent linking a child without a code, the corrected function links the pair and the function as written fails |
| `ContactRequests.FirstParent` | functions/index.js:1555-1564 | the parent of a child's first approved link is a parent linked to that child by an approved link |
| `ContactRequests.FindFirstParent` | functions/index.js:1713-1713 | the lookup returns `getLinkedParents(child)[0]` |
| `ContactRequests.BuildSideRequest` | functions/index.js:1700-1714 | one side's request is built as specified |
| `ContactRequests.BuildNotice` | functions/index.js:1740-1757 | the parent's notification is built as specified |
| `ContactRequests.CreateContactRequest` | functions/index.js:1570-1789 | the callable's result and new store are those of the specification |
| `ContactRequests.RegisterContact` | functions/index.js:1636-1783 | steps 4 to 11 give the specified result and store |
| `ContactRequests.EarlyRefusalsWriteNothing` | functions/index.js:1577-1595 | signing out, a missing contact id or naming oneself is refused and writes nothing; naming oneself is `invalid-argument` |
| `ContactRequests.ApprovedContactBlocks` | functions/index.js:1606-1613 | an approved contact of the sorted pair refuses with `already-exists` and writes nothing |
| `ContactRequests.StaleContactDeletedFirst` | functions/index.js:1629-1633 | a rejected contact, or a pending one without pending requests, is deleted before the rest runs: a later refusal leaves the store as it was minus that contact, and a success leaves every other contact but the new one as it was minus that contact |
| `ContactRequests.CreatedContactAndRequests` | functions/index.js:1666-1783 | a success creates one contact for the sorted pair, pending iff some side needs approval and auto-approved otherwise, and two mirrored requests, each pending iff its own side needs approval and then assigned a parent; the pending count is the number of pending requests; every other contact is kept except the deleted stale one, no other request changes, and nothing but contacts and requests is written |
| `ContactRequests.RegisterCreates` | functions/index.js:1684-1735 | the same shape and frame, for the steps after the stale-contact deletion: exactly the new contact and the two requests are written |
| `ContactRequests.PendingRequestGoesToLinkedParent` | functions/index.js:1712-1714 | a pending side's request is assigned to a parent linked to that child by an approved link |
| `ContactRequests.PairIndependentOfAsker` | functions/index.js:1598-1598 | the contact's pair is the same whichever user asks, and holds just the two users |
| `ContactRequests.ParseDecision` | functions/index.js:1811-1813 | a decision is accepted iff it is the string "approved" or "rejected", and is never pending |
| `ContactRequests.UpdateContactRequestStatus` | functions/index.js:1795-1931 | the callable's result and new store are those of the specification |
| `ContactRequests.ApplyCascade` | functions/index.js:1870-1920 | the cascade loop leaves contacts and requests as the cascade function says |
| `ContactRequests.OnlyAssignedParentDecides` | functions/index.js:1828-1830 | only the parent the request is assigned to can change anything |
| `ContactRequests.SameDecisionIsNoOp` | functions/index.js:1840-1847 | repeating the current status succeeds and writes nothing |
| `ContactRequests.DecisionRecorded` | functions/index.js:1850-1866 | a decision records status, author and time; an approval clears an earlier rejection; the parties and contact are kept |
| `ContactRequests.ApprovalCompletesContactIff` | functions/index.js:1871-1892 | an approval approves the contact iff every request of it is then approved; otherwise nothing changes |
| `ContactRequests.RejectionCascade` | functions/index.js:1895-1920 | a rejection rejects the contact and exactly its still pending requests; approved requests and other contacts' requests keep their state |
| `ContactRequests.MissingContactAfterDecision` | functions/index.js:1866-1900 | when the contact document is missing, the caller sees `internal` but the decision stays recorded |
| `ContactRequests.BothParentsApprove` | functions/index.js:1870-1892 | when both parents of a pair approve, one after the other, the contact ends approved |
| `ContactRequests.FirstApprovalWaits` | functions/index.js:1877-1891 | while another request of the contact is pending, an approval only updates its own request |
| `ContactRequests.LastApprovalCompletes` | functions/index.js:1877-1886 | approving the last unapproved request approves the contact |
| `ContactRequests.ApprovalReachesCascade` | functions/index.js:1849-1870 | a pending request approved by its parent is recorded, then the contact cascade runs |
| `GroupPermissions.ApproveGroupPermission` | functions/index.js:1937-2062 | the callable's result and new store are those of the specification |
| `GroupPermissions.UpdateGroupPermissionStatus` | functions/index.js:2068-2159 | the callable's result and new store are those of the specification |
| `GroupPermissions.DecisionMovesOnlyForward` | functions/index.js:2105-2146 | a decision moves the request only pending→approved, pending→rejected or rejected→approved, and creates or removes no request |
| `GroupPermissions.ApprovalMovesOnlyForward` | functions/index.js:1970-2049 | an approval moves the request to approved from pending or rejected only |
| `GroupPermissions.ApprovedCannotBeRejected` | functions/index.js:2112-2117 | rejecting an approved request is refused with `failed-precondition`, before the same-status check, and writes nothing |
| `GroupPermissions.OnlyAssignedParentWrites` | functions/index.js:2100-2127 | only the assigned parent changes anything, and then successfully; an approval writes only for a request not yet approved |
| `GroupPermissions.DecisionStamped` | functions/index.js:2129-2146 | a decision records its author and time; approving clears the rejection fields; nothing but permission requests changes |
| `GroupPermissions.ApprovalJoinsContact` | functions/index.js:1986-2049 | a successful approval leaves a contact holding both users approved for the group: the first existing one, with its users kept, or a new one for the sorted pair; other contacts unchanged; the request approved by the caller at now, its rejection fields cleared when it was rejected and kept otherwise, its parent, contact and `updatedBy` kept; no other request and nothing else written |
| `GroupPermissions.ReapprovalWritesNothing` | functions/index.js:1977-1984 | approving an approved request writes nothing and reports the contact it names |
| `Notifications.BuildDataPayload` | functions/index.js:444-462 | the loop builds the specified payload |
| `Notifications.PayloadContents` | functions/index.js:444-462 | the payload holds the notification id and type (default "general") over any data field of that name, the sender photo as `imageUrl` when there is one, and every other data field iff it is neither null nor undefined, as its string form |
| `Notifications.CallsAreDeliveredUrgently` | functions/index.js:465-505 | calls, and only calls, get the calls channel, APNs priority 10, a sticky tagged notification and the time-sensitive call category; other notifications are high priority iff they ask for it; the image extension is enabled iff there is a sender photo; title and body are never empty |
| `Bullying.ToLower` | functions/index.js:949-949 | lower-casing keeps the length and maps each character |
| `Bullying.Matches` | functions/index.js:990-997 | never more matches than keywords, and a keyword is matched iff it is listed and the message contains it |
| `Bullying.CountKeywords` | functions/index.js:987-997 | the loop's count is the number of listed keywords the message contains, and its flag says whether a high-severity one is among them |
| `Bullying.DetectBullying` | functions/index.js:946-1017 | the report is that of the specification |
| `Bullying.AssessMeaning` | functions/index.js:946-1017 | an empty message is clean with no count; otherwise bullying iff some keyword occurs, high iff a listed high-severity keyword occurs or at least three do, medium for two, low for one, none iff no bullying |
| `Bullying.UnlistedHighSeverityKeyword` | functions/index.js:979-985 | as written, "suicídate" is high severity but not looked for, so a message saying just that is reported clean |
| `Bullying.HighSeverityKeywordsDetected` | functions/index.js:979-1004 | with the corrected list, any message containing a high-severity keyword is reported high |
| `Cleanup.BatchDeletes` | functions/index.js:1324-1364 | the batches hold every document once and in order; all but the last are full (500), none is empty, there are ⌈n/500⌉ of them, and the count is n |
| `Cleanup.Expired` | functions/index.js:1309-1312 | the selection holds every story with `expiresAt <= now` as often as the query returns it, and no other |
| `Cleanup.ExpiredMembers` | functions/index.js:1309-1312 | a story is selected iff it was queried and has expired |
| `Cleanup.Removed` | functions/index.js:1339-1345 | a file is deleted iff it was attempted and its deletion did not fail |
| `Cleanup.Ids` | functions/index.js:1349-1349 | the batch deletes each selected story's document |
| `Cleanup.DownloadUrlGivesPath` | functions/index.js:1336-1337 | a download URL `prefix/o/path?query` yields its object path |
| `Cleanup.NoMarkerNoPath` | functions/index.js:1336-1337 | a URL without `/o/` has no storage path |
| `Cleanup.CleanupExpiredStories` | functions/index.js:1294-1380 | nothing is returned iff no story has expired; otherwise the files deleted are exactly the attempted ones that did not fail, the batches delete every expired story once in batches of 1 to 500, the reported deletions are their number, and the reported error count is 0 |
| `Cleanup.DeleteMediaFiles` | functions/index.js:1333-1346 | the storage loop deletes the specified files |
| `Cleanup.StoryErrorsNeverCounted` | functions/index.js:1322-1375 | for one expired story whose file deletion fails, the run as written reports 0 errors while the corrected count is 1 |
| `Cleanup.CorrectedStoryErrors` | functions/index.js:1342-1345 | the corrected count is the number of failed deletions |
| `Cleanup.CorrectedErrorsMeanFailures` | functions/index.js:1342-1345 | with the corrected count, a run reports no error iff every attempted deletion succeeded |
| `Cleanup.CleanupOldRateLimits` | functions/index.js:1483-1540 | nothing is returned iff no record matches; otherwise the count is the number of matching records, and exactly those are removed |
| `Cleanup.SetToSeq` | functions/index.js:1516-1516 | the query result, as a list, holds each matching id once |
| `Cleanup.SingleRequestRecordsKept` | functions/index.js:1498-1501 | as written, a record made by a single request, which has no `lastRequest`, is never removed |
| `Cleanup.WithoutStaleCorrected` | functions/index.js:1494-1501 | the corrected clean-up keeps exactly the records whose last activity is not older than the threshold, unchanged |
| `Cleanup.CorrectedCleanupExtendsAsWritten` | functions/index.js:1498-1501 | the corrected rule removes all that the written one does, plus exactly the records without `lastRequest` created before the threshold |
| `Camera.ImageProxy.Close` | android/app/src/main/kotlin/com/talia/chat/DeepARCameraController.kt:199-201 | closing marks the proxy closed |
| `Camera.YRows` | android/app/src/main/kotlin/com/talia/chat/DeepARCameraController.kt:140-144 | a copied Y plane has `rows * width` bytes |
| `Camera.YPlane` | android/app/src/main/kotlin/com/talia/chat/DeepARCameraController.kt:133-145 | the Y part has `width * height` bytes in both branches |
| `Camera.UvRow` | android/app/src/main/kotlin/com/talia/chat/DeepARCameraController.kt:158-163 | a chroma row has two bytes per pixel |
| `Camera.UvRows` | android/app/src/main/kotlin/com/talia/chat/DeepARCameraController.kt:157-164 | the interleaving loop writes two bytes for each of `uvWidth * uvHeight` pixels |
| `Camera.UvPlaneAsWritten` | android/app/src/main/kotlin/com/talia/chat/DeepARCameraController.kt:148-165 | as written, the chroma part has `2 * uvWidth * uvHeight` bytes in both branches, and in the fast branch it is read iff the V buffer holds that many bytes |
| `Camera.UvPlane` | android/app/src/main/kotlin/com/talia/chat/DeepARCameraController.kt:148-165 | with the corrected fast read, the chroma part has `2 * uvWidth * uvHeight` bytes in both branches, and a non-empty fast read succeeds iff that count is at most one more than each of the V and U buffers |
| `Camera.Nv21` | android/app/src/main/kotlin/com/talia/chat/DeepARCameraController.kt:129-165 | a packed frame has exactly `width*height + 2*⌈width/2⌉*⌈height/2⌉` bytes, so the copies fill the buffer with no write out of bounds |
| `Camera.CopyInto` | android/app/src/main/kotlin/com/talia/chat/DeepARCameraController.kt:142-142 | a bulk read writes the source bytes at the offset and leaves the bytes before it alone |
| `Camera.CopyYPlane` | android/app/src/main/kotlin/com/talia/chat/DeepARCameraController.kt:133-145 | the Y copy succeeds iff the plane can be read, and then fills the first `width * height` bytes with it |
| `Camera.CopyYRows` | android/app/src/main/kotlin/com/talia/chat/DeepARCameraController.kt:140-144 | the padded-row loop succeeds iff every row fits, and then fills the Y part row by row |
| `Camera.CopyYRow` | android/app/src/main/kotlin/com/talia/chat/DeepARCameraController.kt:141-143 | one row's copy advances `pos` by `width` and extends the filled prefix by that row |
| `Camera.CopyUvPlanes` | android/app/src/main/kotlin/com/talia/chat/DeepARCameraController.kt:148-165 | the chroma copy, with the corrected fast read, succeeds iff the planes can be read, fills the buffer from `pos` to its end with the specified bytes, and keeps the Y part |
| `Camera.CopyUvRows` | android/app/src/main/kotlin/com/talia/chat/DeepARCameraController.kt:157-164 | the row loop writes the interleaved rows after the Y part and keeps the bytes before it |
| `Camera.CopyUvRow` | android/app/src/main/kotlin/com/talia/chat/DeepARCameraController.kt:158-163 | one row's loop writes V then U per pixel and keeps the bytes before it |
| `Camera.PackNv21` | android/app/src/main/kotlin/com/talia/chat/DeepARCameraController.kt:128-165 | the buffer filled in place is the NV21 packing, or nothing when a read throws |
| `Camera.FrameOf` | android/app/src/main/kotlin/com/talia/chat/DeepARCameraController.kt:172-173 | a frame is posted iff the packing succeeds; it is mirrored iff the lens faces front and holds `nv21Size` bytes |
| `Camera.CameraController.constructor` | android/app/src/main/kotlin/com/talia/chat/DeepARCameraController.kt:37-94 | the controller starts with the front lens, no frames and the log clock at the current time |
| `Camera.CameraController.SwitchCamera` | android/app/src/main/kotlin/com/talia/chat/DeepARCameraController.kt:204-220 | switching flips the lens |
| `Camera.CameraController.ProcessImageProxy` | android/app/src/main/kotlin/com/talia/chat/DeepARCameraController.kt:97-202 | the proxy is closed on every path; without an image nothing else happens; with one, the frame is counted, the log clock moves to now iff a log line is due, and the posted frame is the packed one, mirrored per the lens |
| `Camera.SwitchIsAnInvolution` | android/app/src/main/kotlin/com/talia/chat/DeepARCameraController.kt:211-215 | a switch always changes the lens, and two switches restore it |
| `Camera.YRowsTakeRowSlices` | android/app/src/main/kotlin/com/talia/chat/DeepARCameraController.kt:140-144 | the padded copy puts bytes `row*stride ..+width` of the plane at `row*width` of the output, for every row |
| `Camera.UnpaddedRowsAreOneRead` | android/app/src/main/kotlin/com/talia/chat/DeepARCameraController.kt:134-137 | with unpadded rows, the row loop and the single read agree, including on whether the buffer suffices |
| `Camera.UvRowPairs` | android/app/src/main/kotlin/com/talia/chat/DeepARCameraController.kt:159-162 | each chroma pair holds V, then U, read at one and the same index |
| `Camera.UvRowsPairs` | android/app/src/main/kotlin/com/talia/chat/DeepARCameraController.kt:157-164 | the pair of chroma pixel (row, col) sits at offset `2*(row*uvWidth + col)` and reads index `row*uvRowStride + col*uvPixelStride` |
| `Camera.PackedFrameLayout` | android/app/src/main/kotlin/com/talia/chat/DeepARCameraController.kt:129-165 | a packed frame is the Y plane in its first `width*height` bytes followed by the interleaved chroma rows |
| `Camera.InterleavedRowIsOneRead` | android/app/src/main/kotlin/com/talia/chat/DeepARCameraController.kt:157-164 | when V and U are views of one allocation, one chroma row of the loop is one slice of the allocation |
| `Camera.InterleavedRowsAreOneRead` | android/app/src/main/kotlin/com/talia/chat/DeepARCameraController.kt:157-164 | for such views, all chroma rows of the loop are one prefix of the allocation |
| `Camera.CorrectedFastReadAgreesWithLoop` | android/app/src/main/kotlin/com/talia/chat/DeepARCameraController.kt:151-164 | for an even width and views of one allocation, the corrected fast read succeeds exactly when the interleaving loop does and yields the same bytes, the allocation's prefix |
| `Camera.FastReadIsPrefix` | android/app/src/main/kotlin/com/talia/chat/DeepARCameraController.kt:151-154 | within both views of one allocation, the corrected fast read copies the allocation's first `2 * uvWidth * uvHeight` bytes |
| `Camera.LoopNeedsBothViews` | android/app/src/main/kotlin/com/talia/chat/DeepARCameraController.kt:157-164 | the loop throws when either view is more than one byte shorter than the chroma part |
| `Camera.UvRowReadFails` | android/app/src/main/kotlin/com/talia/chat/DeepARCameraController.kt:158-163 | a row fails when the read for its last pair fails |
| `Camera.SharedViewsFastReadUnderflows` | android/app/src/main/kotlin/com/talia/chat/DeepARCameraController.kt:151-154 | as written, on views one byte shorter than an allocation of exactly the chroma size, the fast read throws while the loop and the corrected read copy the whole allocation |
| `Camera.TwoByTwoSharedFrame` | android/app/src/main/kotlin/com/talia/chat/DeepARCameraController.kt:151-154 | a 2x2 frame with one-byte V and U views of a two-byte allocation is dropped as written and packed by the corrected read |

## Left out

- Firestore, Cloud Messaging and Cloud Storage are replaced by the in-memory `Db`.
  Transactions, batches and the parallel `Promise.all` reads are modelled as
  sequential steps. Races between concurrent calls are not modelled.
- `verifyAppCheckToken` and CORS depend on the deployment; the App Check verdict is a
  boolean parameter.
- `generateAgoraToken`, `generateChildReport`, `analyzeSentiment`,
  `autoResolveEmergencies`, `processFullDataExport` and the notification lookups and
  send are not part of this model. Only the validators of the first two are modelled.
  The others are about the Agora library, floating-point statistics or query plumbing.
- `sendNotificationOnCreate` is modelled only for the message it builds (payload and
  delivery settings). The user, token, sender and alias lookups, the title rewrite
  with the sender's alias, and the `sent`/`error` write-back are not modelled.
- Clock readings are the integer `now`. Document ids made by `add()` or `doc()` are
  parameters (`NewIds`, `newId`), or the element's position in an auto-id collection.
- A query's `docs[0]` is the least matching id in character order, which is
  Firestore's default order (`Queries.FirstId`). The `link_codes` query takes the
  first matching code in collection order.
- `toLowerCase` covers ASCII and Latin-1 capitals only. `trim` uses the ECMAScript
  whitespace set. The default sort compares code points, which differs from UTF-16
  order only for characters beyond the Basic Multilingual Plane.
- `decodeURIComponent` and the decimal rendering of numbers are parameters.
- `CleanupExpiredStories` and `CleanupOldRateLimits`: a batch commit that fails is not
  modelled. All commits are taken to succeed. In the source, a rejected commit makes
  `Promise.all` reject and the handler rethrow, possibly after other batches were
  committed.
- String lengths count UTF-16 code units, as `length` does. The default sort still
  compares code points.
- Stored timestamps are integers, not `{timestamp}` objects. A record without a
  `requests` field, which the limiter reads as `[]`, is not modelled.
- Non-string ids are modelled as `internal`. Where a callable receives a truthy
  request or contact id that is not a string, the Firestore call throws. Only for
  `approveGroupPermission` are `childId` and `contactId` taken to be strings.
- The e-mail fields of `createContactRequest` and the `contactName` of
  `approveGroupPermission` are not modelled; they are copied or ignored.
- `ParentChildLink.CreateLink`: models the function with `admin` resolved and with
  `HttpsError`s re-thrown unchanged, because as written no call can succeed (see
  Findings). The as-written behaviour is `CreateLinkAsWritten`.
- Kotlin `Int` arithmetic does not overflow in the model: `frameCount` and the buffer
  sizes are unbounded. At 30 frames per second, `frameCount` would wrap after about
  two years of continuous capture.
- CameraX binding, the executor, the main-thread post and `receiveFrame` of the AR
  engine are left out, and so is logging. `switchCamera`'s unbinding and rebinding is
  not modelled. A frame is modelled as posted when it is built.
- `Camera.PackNv21` and `Camera.CameraController.ProcessImageProxy` use the corrected
  fast chroma read (see Findings). The as-written read is `UvPlaneAsWritten`.
- `Camera.CorrectedFastReadAgreesWithLoop`: stated for even widths only, because for
  an odd width the loop's rows of `uvWidth` pairs are wider than the row stride, and
  the single read and the loop copy different bytes.
- `image.planes` is taken to have its three planes. A buffer read that throws
  (`BufferUnderflowException`, `IndexOutOfBoundsException`) makes the packing
  `None`: the frame is dropped and the proxy closed.

## Findings

| source | as written | input that shows it | evidently intended | confidence | as-written member | corrected member |
|---|---|---|---|---|---|---|
| functions/index.js:1214 | the batch and the contact fan-out (also line 1254) call `admin.firestore.FieldValue.arrayUnion`, but `admin` is never imported (lines 1-8), so building the batch throws `ReferenceError` before any commit | parent "p" links child "c" without a code; both users exist and nothing is linked yet | import `FieldValue` from `firebase-admin/firestore` (as `getFirestore` is on line 5) and call `FieldValue.arrayUnion`, so that the link is created | not executed; high | `ParentChildLink.AsWrittenAlwaysInternal` | `ParentChildLink.CorrectedLinksWhereAsWrittenFails` |
| functions/index.js:1279 | the handler re-throws an error only if its `code` starts with `functions/`. An `HttpsError`'s code is the bare name (`not-found`, ...), so every refusal reaches the caller as `internal` | a signed-in caller sends a link code that does not exist | re-throw `HttpsError`s unchanged, as the comment beside the test says | not executed; medium (relies on the documented unprefixed codes of `HttpsError`) | `ParentChildLink.HandlerNeverRethrows` | `ParentChildLink.SuccessIff` |
| functions/index.js:982 | "suicídate" is listed as a high-severity keyword, but the match loop runs over the other list, which lacks it | the message "suicídate" | every high-severity keyword is also looked for | not executed; high | `Bullying.UnlistedHighSeverityKeyword` | `Bullying.HighSeverityKeywordsDetected` |
| functions/index.js:1322 | `errorCount` is reported but never incremented; a failed file deletion is only logged | one expired story with media URL "h/o/p?x" whose file "p" fails to delete | count each failed deletion | not executed; medium | `Cleanup.StoryErrorsNeverCounted` | `Cleanup.CorrectedErrorsMeanFailures` |
| functions/index.js:1500 | the clean-up selects records with `lastRequest < threshold`, but a record made by one request has only `createdAt`, so it is never selected | a record created by a single request, any age | treat the creation time as the last activity when there is no later request | not executed; medium | `Cleanup.SingleRequestRecordsKept` | `Cleanup.CorrectedCleanupExtendsAsWritten` |
| android/app/src/main/kotlin/com/talia/chat/DeepARCameraController.kt:151-154 | the fast branch reads `uvWidth*uvHeight*2` bytes from the V buffer. When V and U are views of one interleaved allocation, each view is one byte shorter than that, so the read throws `BufferUnderflowException` and the frame is dropped, while the loop would have packed it | a 2x2 frame whose V and U buffers are one-byte views of a two-byte chroma allocation | copy all but the last byte from V and the last byte, the final U sample, from U, as the loop does | not executed; medium (relies on the usual shared layout of interleaved chroma planes) | `Camera.SharedViewsFastReadUnderflows` | `Camera.CorrectedFastReadAgreesWithLoop` |
