/** The stand-alone rate-limit exercise (functions/test-rate-limit.js): a copy of the
    limiter that also reports how many requests the window holds and, unlike the
    production one, fails closed; and the three bursts of requests it sends. */
module RateLimitTest {
  import opened Outcomes
  import opened Records
  import opened Store
  import opened RateLimit

  /** The script's own copy of the policy table (functions/test-rate-limit.js:23-36). */
  const TEST_RATE_LIMITS: map<string, Limits> := map[
    "createLink" := Limits(5, 60 * 60 * 1000),
    "generateToken" := Limits(20, 60 * 1000),
    "generateReport" := Limits(10, 60 * 60 * 1000)]

  /** The copy agrees with the production table entry for entry. */
  lemma TestTableMatchesProduction()
    ensures TEST_RATE_LIMITS == RATE_LIMITS
    ensures TEST_RATE_LIMITS["generateToken"].maxRequests == 20
    ensures TEST_RATE_LIMITS["createLink"].maxRequests == 5
    ensures TEST_RATE_LIMITS["generateReport"].maxRequests == 10
  {
  }

  /** The object `testRateLimit` returns. `error` marks the `{allowed: false, error}` of
      its handler; `count` is absent then. */
  datatype TestResult = TestResult(allowed: bool, retryAfter: Option<int>, count: Option<int>, error: bool)

  datatype TestStep = TestStep(result: TestResult, record: Option<RateRecord>)

  const Failed: TestResult := TestResult(false, None, None, true)

  /** `testRateLimit`, on the record read inside the transaction; `fault` is an error
      raised by the transaction. The same crash as in production on an empty window with
      `maxRequests <= 0` here ends in a refusal. */
  function TestCheck(rec: Option<RateRecord>, userId: string, action: string, limits: Limits, now: int, fault: bool): TestStep {
    if fault then TestStep(Failed, rec)
    else if rec.None? then
      TestStep(TestResult(true, None, Some(1), false), Some(RateRecord([now], userId, action, now, None)))
    else
      var recent := InWindow(rec.value.requests, now - limits.windowMs);
      if |recent| >= limits.maxRequests then
        if recent == [] then TestStep(Failed, rec)
        else TestStep(TestResult(false, Some(CeilDiv(recent[0] + limits.windowMs - now, 1000)), Some(|recent|), false), rec)
      else
        TestStep(TestResult(true, None, Some(|recent| + 1), false),
                 Some(rec.value.(requests := recent + [now], lastRequest := Some(now))))
  }

  method TestRateLimit(db: Db, userId: string, action: string, limits: Limits, now: int, fault: bool)
    returns (r: TestResult)
    modifies db`rateLimits
    ensures var s := TestCheck(Lookup(old(db.rateLimits), DocId(userId, action)), userId, action, limits, now, fault);
            r == s.result && db.rateLimits == Put(old(db.rateLimits), DocId(userId, action), s.record)
  {
    var key := DocId(userId, action);
    if fault {
      return Failed;
    }
    if key !in db.rateLimits {
      db.rateLimits := db.rateLimits[key := RateRecord([now], userId, action, now, None)];
      return TestResult(true, None, Some(1), false);
    }
    var data := db.rateLimits[key];
    var recentRequests := InWindow(data.requests, now - limits.windowMs);
    if |recentRequests| >= limits.maxRequests {
      if recentRequests == [] {
        return Failed;
      }
      var oldestRequest := recentRequests[0];
      var retryAfter := CeilDiv(oldestRequest + limits.windowMs - now, 1000);
      return TestResult(false, Some(retryAfter), Some(|recentRequests|), false);
    }
    recentRequests := recentRequests + [now];
    db.rateLimits := db.rateLimits[key := data.(requests := recentRequests, lastRequest := Some(now))];
    r := TestResult(true, None, Some(|recentRequests|), false);
  }

  /** Without a fault and with a positive limit the copy makes the production decision,
      with the same retry delay and the same write; its count is the number of stored
      entries after an admission and the in-window count after a refusal. */
  lemma TwinAgreesWithProduction(rec: Option<RateRecord>, userId: string, action: string, limits: Limits, now: int)
    requires limits.maxRequests >= 1
    ensures var t := TestCheck(rec, userId, action, limits, now, false);
            var p := Check(rec, userId, action, limits, now, false);
            && t.result.allowed == p.decision.allowed
            && t.result.retryAfter == p.decision.retryAfter
            && t.record == p.record
            && !t.result.error
    ensures var t := TestCheck(rec, userId, action, limits, now, false);
            && (t.result.allowed ==> t.result.count == Some(|t.record.value.requests|))
            && (!t.result.allowed ==> t.result.count == Some(InWindowCount(rec.value, limits, now)))
  {
  }

  /** Where production fails open, the copy fails closed: a transaction error, or the
      crash on an empty window with a non-positive limit, is a refusal that writes nothing,
      while production admits the same request. */
  lemma TwinFailsClosed(rec: Option<RateRecord>, userId: string, action: string, limits: Limits, now: int, fault: bool)
    requires fault || (rec.Some? && limits.maxRequests <= 0 && InWindowCount(rec.value, limits, now) == 0)
    ensures TestCheck(rec, userId, action, limits, now, fault) == TestStep(Failed, rec)
    ensures Check(rec, userId, action, limits, now, fault) == Step(Admit, rec)
  {
  }

  // ---------------------------------------------------------------------------
  // The bursts of `runTests`
  // ---------------------------------------------------------------------------

  function Min(a: int, b: int): int {
    if a <= b then a else b
  }

  /** The conditions under which a burst shows the limit at work: a positive limit, a
      clock that never goes backwards, and the whole burst inside one window. */
  predicate BurstFits(times: seq<int>, limits: Limits) {
    && limits.maxRequests >= 1
    && Ascending(times)
    && (|times| > 0 ==> times[|times| - 1] - times[0] < limits.windowMs)
  }

  /** One step of a burst: a record holding the first `k` request times, all inside the
      window of the `i`-th request. */
  lemma BurstStep(times: seq<int>, limits: Limits, i: int, k: int)
    requires BurstFits(times, limits) && 0 <= k <= i < |times|
    ensures InWindow(times[..k], times[i] - limits.windowMs) == times[..k]
  {
    forall j | 0 <= j < k ensures times[..k][j] > times[i] - limits.windowMs {
      assert times[0] <= times[j] && times[i] <= times[|times| - 1];
    }
    InWindowExtremes(times[..k], times[i] - limits.windowMs);
  }

  /** The `i`-th request of a burst that fits, against the record the earlier ones left. */
  lemma BurstRequest(rec: Option<RateRecord>, userId: string, action: string, limits: Limits, times: seq<int>, i: nat)
    requires BurstFits(times, limits) && i < |times|
    requires i == 0 ==> rec.None?
    requires i > 0 ==> rec.Some? && rec.value.requests == times[..Min(i, limits.maxRequests)]
    ensures var t := TestCheck(rec, userId, action, limits, times[i], false);
            && t.result == TestResult(i < limits.maxRequests, t.result.retryAfter, Some(Min(i + 1, limits.maxRequests)), false)
            && t.record.Some? && t.record.value.requests == times[..Min(i + 1, limits.maxRequests)]
  {
    if i > 0 {
      BurstStep(times, limits, i, Min(i, limits.maxRequests));
      if i < limits.maxRequests {
        assert times[..i] + [times[i]] == times[..i + 1];
      }
    }
  }

  /** One loop of `runTests`: `testRateLimit` once per request time, in order, on one
      record and without transaction errors. On a fresh record, within one window, the
      first `maxRequests` requests are admitted and the rest refused, each count is the
      number of requests the window then holds, and the record keeps the admitted times.
      No other record is touched. */
  method RunBurst(db: Db, userId: string, action: string, limits: Limits, times: seq<int>)
    returns (results: seq<TestResult>)
    modifies db`rateLimits
    ensures |results| == |times|
    ensures db.rateLimits - {DocId(userId, action)} == old(db.rateLimits) - {DocId(userId, action)}
    ensures BurstFits(times, limits) && DocId(userId, action) !in old(db.rateLimits) ==>
              && (forall j :: 0 <= j < |times| ==>
                    && results[j].allowed == (j < limits.maxRequests)
                    && results[j].count == Some(Min(j + 1, limits.maxRequests))
                    && !results[j].error)
              && (|times| > 0 ==>
                    DocId(userId, action) in db.rateLimits &&
                    db.rateLimits[DocId(userId, action)].requests == times[..Min(|times|, limits.maxRequests)])
  {
    var key := DocId(userId, action);
    ghost var fits := BurstFits(times, limits) && key !in db.rateLimits;
    results := [];
    var i := 0;
    while i < |times|
      invariant 0 <= i <= |times| && |results| == i
      invariant db.rateLimits - {key} == old(db.rateLimits) - {key}
      invariant fits ==> forall j :: 0 <= j < i ==>
                  && results[j].allowed == (j < limits.maxRequests)
                  && results[j].count == Some(Min(j + 1, limits.maxRequests))
                  && !results[j].error
      invariant fits && i == 0 ==> key !in db.rateLimits
      invariant fits && i > 0 ==>
                  key in db.rateLimits && db.rateLimits[key].requests == times[..Min(i, limits.maxRequests)]
    {
      ghost var before := db.rateLimits;
      if fits {
        BurstRequest(Lookup(db.rateLimits, key), userId, action, limits, times, i);
      }
      var r := TestRateLimit(db, userId, action, limits, times[i], false);
      assert db.rateLimits - {key} == before - {key};
      results := results + [r];
      i := i + 1;
    }
  }

  /** The three record keys `runTests` uses for one test user are distinct. */
  lemma TestKeysDistinct(testUserId: string)
    ensures DocId(testUserId, "generateToken") != DocId(testUserId + "-link", "createLink")
    ensures DocId(testUserId, "generateToken") != DocId(testUserId + "-report", "generateReport")
    ensures DocId(testUserId + "-link", "createLink") != DocId(testUserId + "-report", "generateReport")
  {
    assert |DocId(testUserId, "generateToken")| == |testUserId| + 14;
    assert |DocId(testUserId + "-link", "createLink")| == |testUserId| + 16;
    assert |DocId(testUserId + "-report", "generateReport")| == |testUserId| + 22;
  }

  lemma SameOutside<K, V>(a: map<K, V>, b: map<K, V>, k: K, x: K)
    requires a - {k} == b - {k} && x != k
    ensures (x in a <==> x in b) && (x in a ==> a[x] == b[x])
  {
    assert (x in a <==> x in a - {k}) && (x in b <==> x in b - {k});
    if x in a {
      assert (a - {k})[x] == a[x];
    }
  }

  datatype TestRun = TestRun(token: seq<TestResult>, link: seq<TestResult>, report: seq<TestResult>)

  /** `runTests`: 25 token requests against a limit of 20, 8 link requests against 5 and 12
      report requests against 10, each on its own record of a fresh test user, then the
      three records are deleted. `tokenTimes`, `linkTimes` and `reportTimes` are the clock
      readings of the requests. The store's rate-limit records end as they started, minus
      the three test keys; for burst timings that fit a window, exactly the requests beyond
      each limit are refused. */
  method RunTests(db: Db, testUserId: string, tokenTimes: seq<int>, linkTimes: seq<int>, reportTimes: seq<int>)
    returns (run: TestRun)
    requires |tokenTimes| == 25 && |linkTimes| == 8 && |reportTimes| == 12
    modifies db`rateLimits
    ensures db.rateLimits == old(db.rateLimits) - {DocId(testUserId, "generateToken"),
                                                   DocId(testUserId + "-link", "createLink"),
                                                   DocId(testUserId + "-report", "generateReport")}
    ensures |run.token| == 25 && |run.link| == 8 && |run.report| == 12
    ensures BurstFits(tokenTimes, RATE_LIMITS["generateToken"]) && DocId(testUserId, "generateToken") !in old(db.rateLimits) ==>
              forall j :: 0 <= j < 25 ==> run.token[j].allowed == (j < 20)
    ensures BurstFits(linkTimes, RATE_LIMITS["createLink"]) && DocId(testUserId + "-link", "createLink") !in old(db.rateLimits) ==>
              forall j :: 0 <= j < 8 ==> run.link[j].allowed == (j < 5)
    ensures BurstFits(reportTimes, RATE_LIMITS["generateReport"]) && DocId(testUserId + "-report", "generateReport") !in old(db.rateLimits) ==>
              forall j :: 0 <= j < 12 ==> run.report[j].allowed == (j < 10)
  {
    TestKeysDistinct(testUserId);
    var k1 := DocId(testUserId, "generateToken");
    var k2 := DocId(testUserId + "-link", "createLink");
    var k3 := DocId(testUserId + "-report", "generateReport");
    ghost var start := db.rateLimits;
    var token := RunBurst(db, testUserId, "generateToken", TEST_RATE_LIMITS["generateToken"], tokenTimes);
    ghost var afterToken := db.rateLimits;
    var link := RunBurst(db, testUserId + "-link", "createLink", TEST_RATE_LIMITS["createLink"], linkTimes);
    ghost var afterLink := db.rateLimits;
    var report := RunBurst(db, testUserId + "-report", "generateReport", TEST_RATE_LIMITS["generateReport"], reportTimes);
    ghost var afterReport := db.rateLimits;
    db.rateLimits := db.rateLimits - {k1, k2, k3};
    forall x | x !in {k1, k2, k3}
      ensures (x in db.rateLimits <==> x in start) && (x in start ==> db.rateLimits[x] == start[x])
    {
      SameOutside(start, afterToken, k1, x);
      SameOutside(afterToken, afterLink, k2, x);
      SameOutside(afterLink, afterReport, k3, x);
    }
    SameOutside(start, afterToken, k1, k2);
    SameOutside(start, afterToken, k1, k3);
    SameOutside(afterToken, afterLink, k2, k3);
    run := TestRun(token, link, report);
  }
}
