/** The sliding-window rate limiter `checkRateLimit` and its policy table
    (functions/index.js:235-303). One `rate_limits` record per (user, action) holds the
    timestamps of admitted requests; a check drops the ones that left the window and
    either refuses with a retry delay or admits and appends `now`. Any error inside the
    transaction admits the request (fail-open). */
module RateLimit {
  import opened Outcomes
  import opened Records
  import opened Store

  const CREATE_LINK: Limits := Limits(5, 60 * 60 * 1000)
  const GENERATE_TOKEN: Limits := Limits(20, 60 * 1000)
  const GENERATE_REPORT: Limits := Limits(10, 60 * 60 * 1000)

  /** `RATE_LIMITS`, keyed by action name. */
  const RATE_LIMITS: map<string, Limits> :=
    map["createLink" := CREATE_LINK, "generateToken" := GENERATE_TOKEN, "generateReport" := GENERATE_REPORT]

  /** The record's document id, `${userId}_${action}`. */
  function DocId(userId: string, action: string): string {
    userId + "_" + action
  }

  /** For an action name without `_` (as every name in the table is), the document id
      determines both the user and the action: two (user, action) pairs never share a record. */
  lemma DocIdInjective(u1: string, a1: string, u2: string, a2: string)
    requires '_' !in a1 && '_' !in a2
    requires DocId(u1, a1) == DocId(u2, a2)
    ensures u1 == u2 && a1 == a2
  {
    var s := DocId(u1, a1);
    assert s[|s| - |a1| - 1] == '_';
    assert s[|s| - |a2| - 1] == '_';
    assert a1 == s[|s| - |a1|..] == a2;
    assert u1 == s[..|u1|] == u2;
  }

  lemma TableActionsHaveNoUnderscore(a: string)
    requires a in RATE_LIMITS
    ensures '_' !in a
  {
  }

  predicate Ascending(ts: seq<int>) {
    forall i, j :: 0 <= i < j < |ts| ==> ts[i] <= ts[j]
  }

  /** `requests.filter((r) => r.timestamp > windowStart)`: the entries inside the window,
      in their stored order. */
  function InWindow(requests: seq<int>, windowStart: int): (r: seq<int>)
    ensures |r| <= |requests|
    ensures forall i :: 0 <= i < |r| ==> r[i] > windowStart
  {
    if requests == [] then []
    else
      var rest := InWindow(requests[1..], windowStart);
      if requests[0] > windowStart then [requests[0]] + rest else rest
  }

  /** The filter keeps exactly the entries newer than the window start. */
  lemma {:induction false} InWindowMembers(requests: seq<int>, windowStart: int)
    ensures forall t :: t in InWindow(requests, windowStart) <==> t in requests && t > windowStart
  {
    if requests != [] {
      InWindowMembers(requests[1..], windowStart);
      assert requests == [requests[0]] + requests[1..];
    }
  }

  /** Nothing is dropped while every entry is inside the window, and nothing is kept once
      every entry has left it. */
  lemma {:induction false} InWindowExtremes(requests: seq<int>, windowStart: int)
    ensures (forall i :: 0 <= i < |requests| ==> requests[i] > windowStart) ==>
              InWindow(requests, windowStart) == requests
    ensures (forall i :: 0 <= i < |requests| ==> requests[i] <= windowStart) ==>
              InWindow(requests, windowStart) == []
  {
    if requests != [] {
      InWindowExtremes(requests[1..], windowStart);
      assert forall i :: 1 <= i < |requests| ==> requests[1..][i - 1] == requests[i];
    }
  }

  /** The filter keeps the stored order. */
  lemma {:induction false} InWindowAscending(requests: seq<int>, windowStart: int)
    requires Ascending(requests)
    ensures Ascending(InWindow(requests, windowStart))
  {
    if requests != [] {
      var rest := InWindow(requests[1..], windowStart);
      assert Ascending(requests[1..]) by {
        forall i, j | 0 <= i < j < |requests[1..]| ensures requests[1..][i] <= requests[1..][j] {
          assert requests[1..][i] == requests[i + 1] && requests[1..][j] == requests[j + 1];
        }
      }
      InWindowAscending(requests[1..], windowStart);
      InWindowMembers(requests[1..], windowStart);
      if requests[0] > windowStart {
        forall j | 0 < j < |rest| + 1 ensures ([requests[0]] + rest)[0] <= ([requests[0]] + rest)[j] {
          assert rest[j - 1] in requests[1..];
        }
      }
    }
  }

  /** `Math.ceil(n / d)` for an integer `n` and a positive integer `d`. */
  function CeilDiv(n: int, d: int): (q: int)
    requires d > 0
    ensures d * (q - 1) < n <= d * q
  {
    -((-n) / d)
  }

  datatype Decision = Decision(allowed: bool, retryAfter: Option<int>)

  /** What one check does to the record: the verdict, and the record afterwards
      (`None` only when it was missing and still is). */
  datatype Step = Step(decision: Decision, record: Option<RateRecord>)

  const Admit: Decision := Decision(true, None)

  /** The count of entries of `rec` inside the window ending at `now`. */
  function InWindowCount(rec: RateRecord, limits: Limits, now: int): nat {
    |InWindow(rec.requests, now - limits.windowMs)|
  }

  /** `checkRateLimit`, on the record read inside the transaction. `fault` stands for any
      error raised by the transaction itself; it is then rolled back and the check admits.
      With `maxRequests <= 0`, reading `recentRequests[0]` of the empty list throws, which
      the same handler turns into an admission. */
  function Check(rec: Option<RateRecord>, userId: string, action: string, limits: Limits, now: int, fault: bool): Step {
    if fault then Step(Admit, rec)
    else if rec.None? then Step(Admit, Some(RateRecord([now], userId, action, now, None)))
    else
      var recent := InWindow(rec.value.requests, now - limits.windowMs);
      if |recent| >= limits.maxRequests then
        if recent == [] then Step(Admit, rec)
        else Step(Decision(false, Some(CeilDiv(recent[0] + limits.windowMs - now, 1000))), rec)
      else
        Step(Admit, Some(rec.value.(requests := recent + [now], lastRequest := Some(now))))
  }

  /** Writes the record back, or leaves the map alone when there is none. */
  function Put(m: map<string, RateRecord>, key: string, rec: Option<RateRecord>): map<string, RateRecord> {
    if rec.Some? then m[key := rec.value] else m
  }

  /** `checkRateLimit(userId, action, limits)` against the store. */
  method CheckRateLimit(db: Db, userId: string, action: string, limits: Limits, now: int, fault: bool)
    returns (d: Decision)
    modifies db`rateLimits
    ensures var s := Check(Lookup(old(db.rateLimits), DocId(userId, action)), userId, action, limits, now, fault);
            d == s.decision && db.rateLimits == Put(old(db.rateLimits), DocId(userId, action), s.record)
  {
    var key := DocId(userId, action);
    if fault {
      return Admit;
    }
    if key !in db.rateLimits {
      db.rateLimits := db.rateLimits[key := RateRecord([now], userId, action, now, None)];
      return Admit;
    }
    var data := db.rateLimits[key];
    var recentRequests := InWindow(data.requests, now - limits.windowMs);
    if |recentRequests| >= limits.maxRequests {
      if recentRequests == [] {
        return Admit;
      }
      var oldestRequest := recentRequests[0];
      return Decision(false, Some(CeilDiv(oldestRequest + limits.windowMs - now, 1000)));
    }
    recentRequests := recentRequests + [now];
    db.rateLimits := db.rateLimits[key := data.(requests := recentRequests, lastRequest := Some(now))];
    d := Admit;
  }

  // ---------------------------------------------------------------------------
  // Properties of one check
  // ---------------------------------------------------------------------------

  /** A refusal happens exactly when the record exists and already holds at least
      `maxRequests` entries inside the window (and at least one); it writes nothing, and the
      retry delay is the rounded-up number of seconds until the first such entry leaves
      the window, which is at least one second. */
  lemma RefusalIsExactlyAFullWindow(rec: Option<RateRecord>, userId: string, action: string, limits: Limits, now: int, fault: bool)
    ensures var s := Check(rec, userId, action, limits, now, fault);
            !s.decision.allowed <==>
              !fault && rec.Some? && InWindowCount(rec.value, limits, now) >= limits.maxRequests &&
              InWindowCount(rec.value, limits, now) > 0
    ensures var s := Check(rec, userId, action, limits, now, fault);
            !s.decision.allowed ==>
              var recent := InWindow(rec.value.requests, now - limits.windowMs);
              && s.record == rec
              && s.decision.retryAfter == Some(CeilDiv(recent[0] + limits.windowMs - now, 1000))
              && s.decision.retryAfter.value >= 1
  {
    var s := Check(rec, userId, action, limits, now, fault);
    if !s.decision.allowed {
      var recent := InWindow(rec.value.requests, now - limits.windowMs);
      assert recent[0] > now - limits.windowMs;
    }
  }

  /** A missing record becomes `[now]` and the request is admitted. */
  lemma MissingRecordAdmits(userId: string, action: string, limits: Limits, now: int)
    ensures Check(None, userId, action, limits, now, false) ==
              Step(Admit, Some(RateRecord([now], userId, action, now, None)))
  {
  }

  /** An admitted request on an existing record stores exactly the entries still in the
      window followed by `now`, so the stored list never holds more than `maxRequests`. */
  lemma AdmissionStoresWindowPlusNow(rec: RateRecord, userId: string, action: string, limits: Limits, now: int)
    requires InWindowCount(rec, limits, now) < limits.maxRequests
    ensures var s := Check(Some(rec), userId, action, limits, now, false);
            && s.decision == Admit
            && s.record == Some(rec.(requests := InWindow(rec.requests, now - limits.windowMs) + [now],
                                     lastRequest := Some(now)))
            && |s.record.value.requests| <= limits.maxRequests
  {
    var recent := InWindow(rec.requests, now - limits.windowMs);
    assert |recent + [now]| == |recent| + 1 <= limits.maxRequests;
  }

  /** An error inside the transaction admits the request and writes nothing. */
  lemma FailOpen(rec: Option<RateRecord>, userId: string, action: string, limits: Limits, now: int)
    ensures Check(rec, userId, action, limits, now, true) == Step(Admit, rec)
  {
  }

  /** The bound the record keeps: with a positive limit, a check never leaves more than
      `maxRequests` stored entries if there were not more before, so at every later time
      the in-window count is within the limit too. */
  predicate WithinBound(rec: Option<RateRecord>, limits: Limits) {
    rec.None? || |rec.value.requests| <= limits.maxRequests
  }

  lemma CheckPreservesBound(rec: Option<RateRecord>, userId: string, action: string, limits: Limits, now: int, fault: bool)
    requires limits.maxRequests >= 1 && WithinBound(rec, limits)
    ensures WithinBound(Check(rec, userId, action, limits, now, fault).record, limits)
    ensures var r := Check(rec, userId, action, limits, now, fault).record;
            forall t :: r.Some? ==> InWindowCount(r.value, limits, t) <= limits.maxRequests
  {
  }

  /** Stored timestamps stay in ascending order when the clock does not go backwards, so
      the entry the retry delay is computed from is the oldest one in the window. */
  lemma CheckKeepsAscending(rec: RateRecord, userId: string, action: string, limits: Limits, now: int, fault: bool)
    requires Ascending(rec.requests)
    requires forall i :: 0 <= i < |rec.requests| ==> rec.requests[i] <= now
    ensures var r := Check(Some(rec), userId, action, limits, now, fault).record;
            r.Some? && Ascending(r.value.requests)
    ensures var recent := InWindow(rec.requests, now - limits.windowMs);
            forall i :: 0 <= i < |recent| ==> recent[0] <= recent[i]
  {
    var recent := InWindow(rec.requests, now - limits.windowMs);
    InWindowAscending(rec.requests, now - limits.windowMs);
    InWindowMembers(rec.requests, now - limits.windowMs);
    var r := Check(Some(rec), userId, action, limits, now, fault).record;
    if r.value.requests != rec.requests {
      assert r.value.requests == recent + [now];
      forall i, j | 0 <= i < j < |recent| + 1
        ensures (recent + [now])[i] <= (recent + [now])[j]
      {
        if j == |recent| {
          assert recent[i] in rec.requests;
        }
      }
    }
  }

  /** Once every stored entry has left the window, a request is admitted again and the
      record restarts from `now` alone. */
  lemma WindowElapsedAdmits(rec: RateRecord, userId: string, action: string, limits: Limits, now: int)
    requires limits.maxRequests >= 1
    requires forall i :: 0 <= i < |rec.requests| ==> rec.requests[i] <= now - limits.windowMs
    ensures Check(Some(rec), userId, action, limits, now, false).decision.allowed
    ensures Check(Some(rec), userId, action, limits, now, false).record.value.requests == [now]
  {
    InWindowExtremes(rec.requests, now - limits.windowMs);
  }
}
