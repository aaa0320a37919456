/** The scheduled clean-ups (functions/index.js:1294-1536): expired stories with their
    media files, and rate-limit records idle for thirty days, each deleted in batches of
    at most 500 writes. */
module Cleanup {
  import opened Outcomes
  import opened JsValues
  import opened Records
  import opened Store

  // ---------------------------------------------------------------------------
  // Batches of 500
  // ---------------------------------------------------------------------------

  const BATCH_LIMIT: nat := 500

  function Flatten<T>(batches: seq<seq<T>>): seq<T> {
    if batches == [] then [] else Flatten(batches[..|batches| - 1]) + batches[|batches| - 1]
  }

  /** The batching loop: each document's delete joins the current batch, a batch that
      reaches 500 is closed, and a last non-empty batch is closed at the end. The batches
      hold every document once, in order; all are full but the last, which is not empty;
      so there are ceil(n / 500) of them. */
  method BatchDeletes<T>(docs: seq<T>) returns (batches: seq<seq<T>>, deletedCount: nat)
    ensures Flatten(batches) == docs
    ensures forall j :: 0 <= j < |batches| ==> 0 < |batches[j]| <= BATCH_LIMIT
    ensures forall j :: 0 <= j < |batches| - 1 ==> |batches[j]| == BATCH_LIMIT
    ensures |batches| == (|docs| + BATCH_LIMIT - 1) / BATCH_LIMIT
    ensures deletedCount == |docs|
  {
    batches := [];
    var currentBatch: seq<T> := [];
    var batchCount := 0;
    deletedCount := 0;
    for i := 0 to |docs|
      invariant Flatten(batches) + currentBatch == docs[..i]
      invariant batchCount == |currentBatch| == i % BATCH_LIMIT
      invariant |batches| == i / BATCH_LIMIT
      invariant forall j :: 0 <= j < |batches| ==> |batches[j]| == BATCH_LIMIT
      invariant deletedCount == i
    {
      assert docs[..i + 1] == docs[..i] + [docs[i]];
      currentBatch := currentBatch + [docs[i]];
      batchCount := batchCount + 1;
      deletedCount := deletedCount + 1;
      if batchCount >= BATCH_LIMIT {
        assert Flatten(batches + [currentBatch]) == Flatten(batches) + currentBatch by {
          assert (batches + [currentBatch])[..|batches|] == batches;
        }
        batches := batches + [currentBatch];
        currentBatch := [];
        batchCount := 0;
      }
    }
    assert docs[..|docs|] == docs;
    if batchCount > 0 {
      assert Flatten(batches + [currentBatch]) == Flatten(batches) + currentBatch by {
        assert (batches + [currentBatch])[..|batches|] == batches;
      }
      batches := batches + [currentBatch];
    }
  }

  // ---------------------------------------------------------------------------
  // The storage path of a media URL
  // ---------------------------------------------------------------------------

  /** `s.split(sep)[0]`: the text before the first `sep`, or all of `s`. */
  function BeforeFirst(s: string, sep: string): string {
    match IndexOf(s, sep)
    case None => s
    case Some(i) => s[..i]
  }

  /** `s.split(sep)[1]`, kept with what follows it: the text after the first `sep`. */
  function AfterFirst(s: string, sep: string): Option<string> {
    match IndexOf(s, sep)
    case None => None
    case Some(i) => Some(s[i + |sep|..])
  }

  /** `mediaUrl.split("/o/")[1]?.split("?")[0]`, an empty path counting as none. */
  function StoragePath(url: string): Option<string> {
    match AfterFirst(url, "/o/")
    case None => None
    case Some(rest) =>
      var path := BeforeFirst(BeforeFirst(rest, "/o/"), "?");
      if path == "" then None else Some(path)
  }

  /** The first occurrence found by `IndexOf` is the one with no occurrence before it. */
  lemma IndexOfIs(s: string, k: string, i: nat)
    requires OccursAt(s, k, i) && forall j: nat :: j < i ==> !OccursAt(s, k, j)
    ensures IndexOf(s, k) == Some(i)
  {
  }

  /** A download URL `prefix/o/path?query` yields its object path, when the prefix has
      no `/o/` of its own and the path (URL-encoded) has no `/o/` and no `?`. */
  lemma DownloadUrlGivesPath(prefix: string, path: string, query: string)
    requires !Includes(prefix + "/o", "/o/")
    requires path != "" && '?' !in path && !Includes(path, "/o/")
    requires query == "" || query[0] == '?'
    ensures StoragePath(prefix + "/o/" + path + query) == Some(path)
  {
    MarkerAfterPrefix(prefix, path + query);
    assert prefix + "/o/" + path + query == prefix + "/o/" + (path + query);
    var piece := BeforeFirst(path + query, "/o/");
    PieceStartsWithPath(path, query);
    CutAtQuestionMark(path, piece);
  }

  /** The first marker of `prefix/o/rest` is the one right after the prefix. */
  lemma MarkerAfterPrefix(prefix: string, rest: string)
    requires !Includes(prefix + "/o", "/o/")
    ensures AfterFirst(prefix + "/o/" + rest, "/o/") == Some(rest)
  {
    var url := prefix + "/o/" + rest;
    forall j: nat | j < |prefix| ensures !OccursAt(url, "/o/", j) {
      if OccursAt(url, "/o/", j) {
        assert (prefix + "/o")[j..j + 3] == url[j..j + 3];
        IncludesIff(prefix + "/o", "/o/");
        assert OccursAt(prefix + "/o", "/o/", j);
        assert false;
      }
    }
    assert url[|prefix|..|prefix| + 3] == "/o/";
    IndexOfIs(url, "/o/", |prefix|);
    assert url[|prefix| + 3..] == rest;
  }

  /** Cutting `path?query` at its first marker keeps the whole path, followed by
      nothing or by the question mark. */
  lemma PieceStartsWithPath(path: string, query: string)
    requires '?' !in path && !Includes(path, "/o/")
    requires query == "" || query[0] == '?'
    ensures var piece := BeforeFirst(path + query, "/o/");
            |piece| >= |path| && piece[..|path|] == path && (|piece| > |path| ==> piece[|path|] == '?')
  {
    var rest := path + query;
    IncludesIff(path, "/o/");
    forall j: nat | j <= |path| ensures !OccursAt(rest, "/o/", j) {
      if j + 3 <= |path| {
        assert rest[j..j + 3] == path[j..j + 3];
        assert !OccursAt(path, "/o/", j);
      } else if j + 3 <= |rest| {
        assert rest[|path|] == '?';
        assert rest[j..j + 3][|path| - j] == '?';
      }
    }
  }

  /** A piece made of the path, then optionally a question mark and more, is cut back
      to the path at its first question mark. */
  lemma CutAtQuestionMark(path: string, piece: string)
    requires '?' !in path
    requires |piece| >= |path| && piece[..|path|] == path && (|piece| > |path| ==> piece[|path|] == '?')
    ensures BeforeFirst(piece, "?") == path
  {
    forall j: nat | j < |path| ensures !OccursAt(piece, "?", j) {
      assert piece[j] == path[j];
    }
    if |piece| == |path| {
      assert piece == path;
    } else {
      assert piece[|path|..|path| + 1] == "?";
      IndexOfIs(piece, "?", |path|);
    }
  }

  /** A URL without the `/o/` marker has no storage path. */
  lemma NoMarkerNoPath(url: string)
    requires !Includes(url, "/o/")
    ensures StoragePath(url) == None
  {
  }

  // ---------------------------------------------------------------------------
  // cleanupExpiredStories
  // ---------------------------------------------------------------------------

  /** A `stories` document; `mediaUrl` is "" when unset. */
  datatype Story = Story(id: string, expiresAt: int, mediaUrl: string)

  /** What one run did: the storage files it deleted, the story documents per batch, and
      the counts it reports. */
  datatype StorySweep = StorySweep(removedFiles: seq<string>, batches: seq<seq<string>>, deleted: nat, errors: nat)

  /** `expiresAt <= now`, in query order: every expired story, as often as it occurs,
      and nothing else. */
  function Expired(stories: seq<Story>, now: int): (r: seq<Story>)
    ensures |r| <= |stories|
    ensures forall i :: 0 <= i < |r| ==> r[i].expiresAt <= now && r[i] in stories
    ensures forall x :: multiset(r)[x] == (if x.expiresAt <= now then multiset(stories)[x] else 0)
  {
    if stories == [] then []
    else
      var last := stories[|stories| - 1];
      assert stories == stories[..|stories| - 1] + [last];
      Expired(stories[..|stories| - 1], now) + (if last.expiresAt <= now then [last] else [])
  }

  /** A story is swept exactly when it is among the queried ones and has expired. */
  lemma ExpiredMembers(stories: seq<Story>, now: int, x: Story)
    ensures x in Expired(stories, now) <==> x in stories && x.expiresAt <= now
  {
    assert x in Expired(stories, now) <==> multiset(Expired(stories, now))[x] > 0;
    assert x in stories <==> multiset(stories)[x] > 0;
  }

  /** The storage file a story's media is deleted from, if the attempt gets that far:
      `decodeURIComponent` returns `None` where it throws. */
  function MediaFile(s: Story, decode: string -> Option<string>): Option<string> {
    if s.mediaUrl == "" then None
    else match StoragePath(s.mediaUrl)
      case None => None
      case Some(p) => decode(p)
  }

  /** The attempts of a run, and the files actually deleted (`failing` are the ones whose
      deletion throws and is swallowed). */
  function Attempts(expired: seq<Story>, decode: string -> Option<string>): seq<string> {
    if expired == [] then []
    else
      var last := expired[|expired| - 1];
      Attempts(expired[..|expired| - 1], decode) + (match MediaFile(last, decode) case None => [] case Some(f) => [f])
  }

  function Removed(attempts: seq<string>, failing: set<string>): (r: seq<string>)
    ensures |r| <= |attempts|
    ensures forall f :: f in r <==> f in attempts && f !in failing
  {
    if attempts == [] then []
    else
      var last := attempts[|attempts| - 1];
      Removed(attempts[..|attempts| - 1], failing) + (if last in failing then [] else [last])
  }

  function Ids(ss: seq<Story>): (r: seq<string>)
    ensures |r| == |ss| && forall i :: 0 <= i < |ss| ==> r[i] == ss[i].id
  {
    seq(|ss|, i requires 0 <= i < |ss| => ss[i].id)
  }

  /** `cleanupExpiredStories`: `None` where it returns without a result. */
  method CleanupExpiredStories(stories: seq<Story>, now: int, decode: string -> Option<string>, failing: set<string>)
    returns (r: Option<StorySweep>)
    ensures var expired := Expired(stories, now);
            && (r.None? <==> expired == [])
            && (r.Some? ==>
                  && r.value.removedFiles == Removed(Attempts(expired, decode), failing)
                  && Flatten(r.value.batches) == Ids(expired)
                  && (forall j :: 0 <= j < |r.value.batches| ==> 0 < |r.value.batches[j]| <= BATCH_LIMIT)
                  && r.value.deleted == |expired|
                  && r.value.errors == 0)
  {
    var expiredStories := Expired(stories, now);
    if expiredStories == [] {
      return None;
    }
    var errorCount := 0;
    var removedFiles := DeleteMediaFiles(expiredStories, decode, failing);
    var batches, deletedCount := BatchDeletes(Ids(expiredStories));
    r := Some(StorySweep(removedFiles, batches, deletedCount, errorCount));
  }

  /** The storage part of the loop: each story's media file is deleted when its path can
      be extracted and decoded; a failing deletion is skipped. */
  method DeleteMediaFiles(expired: seq<Story>, decode: string -> Option<string>, failing: set<string>)
    returns (removedFiles: seq<string>)
    ensures removedFiles == Removed(Attempts(expired, decode), failing)
  {
    removedFiles := [];
    for i := 0 to |expired|
      invariant removedFiles == Removed(Attempts(expired[..i], decode), failing)
    {
      assert expired[..i + 1][..i] == expired[..i];
      var file := MediaFile(expired[i], decode);
      RemovedSnoc(Attempts(expired[..i], decode), file, failing);
      if file.Some? && file.value !in failing {
        removedFiles := removedFiles + [file.value];
      }
    }
    assert expired[..|expired|] == expired;
  }

  lemma RemovedSnoc(attempts: seq<string>, file: Option<string>, failing: set<string>)
    ensures var more := match file case None => [] case Some(f) => [f];
            Removed(attempts + more, failing) ==
              Removed(attempts, failing) + (if file.Some? && file.value !in failing then [file.value] else [])
  {
    if file.Some? {
      assert (attempts + [file.value])[..|attempts|] == attempts;
    } else {
      assert attempts + [] == attempts;
    }
  }

  /** As written, the reported error count stays 0 even when a media file could not be
      deleted: one expired story whose file deletion fails; the corrected count is 1. */
  lemma StoryErrorsNeverCounted(now: int, decode: string -> Option<string>)
    requires decode("p") == Some("p")
    ensures var expired := Expired([Story("s", now, "h/o/p?x")], now);
            && Attempts(expired, decode) == ["p"]
            && Removed(["p"], {"p"}) == []
            && CorrectedStoryErrors(expired, decode, {"p"}) == 1
  {
    var s := Story("s", now, "h/o/p?x");
    ExpiredSingleton(s, now);
    SampleMediaFile(s, decode);
    assert Attempts([s], decode) == ["p"] by {
      assert [s][..0] == [];
    }
    SampleRemoved();
  }

  lemma ExpiredSingleton(s: Story, now: int)
    requires s.expiresAt <= now
    ensures Expired([s], now) == [s]
  {
    assert [s][..0] == [];
  }

  lemma SampleMediaFile(s: Story, decode: string -> Option<string>)
    requires s.mediaUrl == "h/o/p?x" && decode("p") == Some("p")
    ensures MediaFile(s, decode) == Some("p")
  {
    assert s.mediaUrl == "h" + "/o/" + "p" + "?x";
    NaiveNoMarker("h/o");
    assert "h" + "/o" == "h/o";
    NaiveNoMarker("p");
    DownloadUrlGivesPath("h", "p", "?x");
  }

  lemma SampleRemoved()
    ensures Removed(["p"], {"p"}) == []
  {
    assert ["p"][..0] == [];
  }

  /** A string in which no '/' is followed by "o/" has no `/o/` marker. */
  lemma NaiveNoMarker(s: string)
    requires forall i :: 0 <= i < |s| - 2 ==> !(s[i] == '/' && s[i + 1] == 'o' && s[i + 2] == '/')
    ensures !Includes(s, "/o/")
  {
    forall i: nat ensures !OccursAt(s, "/o/", i) {
      if i + 3 <= |s| {
        assert s[i..i + 3][0] == s[i] && s[i..i + 3][1] == s[i + 1] && s[i..i + 3][2] == s[i + 2];
      }
    }
    IncludesIff(s, "/o/");
  }

  /** The evidently intended count: one error per media file whose deletion failed. */
  function CorrectedStoryErrors(expired: seq<Story>, decode: string -> Option<string>, failing: set<string>): (n: nat)
    ensures n == |Attempts(expired, decode)| - |Removed(Attempts(expired, decode), failing)|
  {
    var a := Attempts(expired, decode);
    |a| - |Removed(a, failing)|
  }

  /** With the corrected count, a run reports no error exactly when every attempted file
      deletion succeeded. */
  lemma {:induction false} CorrectedErrorsMeanFailures(attempts: seq<string>, failing: set<string>)
    ensures |attempts| - |Removed(attempts, failing)| == 0 <==> forall f :: f in attempts ==> f !in failing
  {
    if attempts != [] {
      var init := attempts[..|attempts| - 1];
      var last := attempts[|attempts| - 1];
      CorrectedErrorsMeanFailures(init, failing);
      assert attempts == init + [last];
    }
  }

  // ---------------------------------------------------------------------------
  // cleanupOldRateLimits
  // ---------------------------------------------------------------------------

  /** Thirty days in milliseconds. */
  const RATE_LIMIT_RETENTION_MS: int := 30 * 24 * 60 * 60 * 1000

  /** `where("lastRequest", "<", threshold)`: a record without `lastRequest` never matches. */
  predicate StaleAsWritten(r: RateRecord, threshold: int) {
    r.lastRequest.Some? && r.lastRequest.value < threshold
  }

  function StaleKeys(m: map<string, RateRecord>, threshold: int): set<string> {
    set k | k in m && StaleAsWritten(m[k], threshold)
  }

  function WithoutStale(m: map<string, RateRecord>, threshold: int): map<string, RateRecord> {
    map k | k in m && !StaleAsWritten(m[k], threshold) :: m[k]
  }

  /** `cleanupOldRateLimits`: `None` where it returns without a result. */
  method CleanupOldRateLimits(db: Db, now: int) returns (r: Option<nat>)
    modifies db`rateLimits
    ensures var threshold := now - RATE_LIMIT_RETENTION_MS;
            && (r.None? <==> StaleKeys(old(db.rateLimits), threshold) == {})
            && (r.Some? ==> r.value == |StaleKeys(old(db.rateLimits), threshold)|)
            && db.rateLimits == WithoutStale(old(db.rateLimits), threshold)
  {
    var threshold := now - RATE_LIMIT_RETENTION_MS;
    var oldRateLimits := StaleKeys(db.rateLimits, threshold);
    if oldRateLimits == {} {
      assert forall k :: k in db.rateLimits ==> k !in oldRateLimits;
      assert WithoutStale(db.rateLimits, threshold) == db.rateLimits;
      return None;
    }
    var docs := SetToSeq(oldRateLimits);
    var batches, deletedCount := BatchDeletes(docs);
    // Every batch commits: each listed record is deleted.
    var remaining := db.rateLimits;
    for i := 0 to |docs|
      invariant remaining == map k | k in db.rateLimits && k !in docs[..i] :: db.rateLimits[k]
    {
      assert forall k :: k in docs[..i + 1] <==> k in docs[..i] || k == docs[i];
      remaining := remaining - {docs[i]};
    }
    assert docs[..|docs|] == docs;
    db.rateLimits := remaining;
    r := Some(deletedCount);
  }

  /** The query result as a list of document ids. */
  method SetToSeq(s: set<string>) returns (xs: seq<string>)
    ensures (forall k :: k in xs <==> k in s) && |xs| == |s|
  {
    xs := [];
    var rest := s;
    while rest != {}
      invariant rest <= s
      invariant forall k :: k in xs <==> k in s - rest
      invariant |xs| + |rest| == |s|
      invariant forall i, j :: 0 <= i < j < |xs| ==> xs[i] != xs[j]
      decreases rest
    {
      var k :| k in rest;
      xs := xs + [k];
      rest := rest - {k};
    }
  }

  /** As written, a record made by a user's only request (which sets `createdAt` and no
      `lastRequest`) is never removed, however old it is. */
  lemma SingleRequestRecordsKept(m: map<string, RateRecord>, key: string, t: int, now: int)
    requires key in m && m[key] == RateRecord([t], "u", "createLink", t, None)
    ensures key in WithoutStale(m, now - RATE_LIMIT_RETENTION_MS)
  {
  }

  /** The evidently intended rule: a record is stale when its last activity, the last
      request or else the creation, is older than the threshold. */
  predicate StaleCorrected(r: RateRecord, threshold: int) {
    (if r.lastRequest.Some? then r.lastRequest.value else r.createdAt) < threshold
  }

  function WithoutStaleCorrected(m: map<string, RateRecord>, threshold: int): (r: map<string, RateRecord>)
    ensures forall k :: k in r <==> k in m && !StaleCorrected(m[k], threshold)
    ensures forall k :: k in r ==> r[k] == m[k]
  {
    map k | k in m && !StaleCorrected(m[k], threshold) :: m[k]
  }

  /** With the corrected rule, a record kept by the as-written clean-up is removed
      exactly when it never had a second request and was created before the threshold;
      every record the as-written clean-up removes is removed too. */
  lemma CorrectedCleanupExtendsAsWritten(m: map<string, RateRecord>, threshold: int)
    ensures forall k :: k in WithoutStaleCorrected(m, threshold) ==> k in WithoutStale(m, threshold)
    ensures forall k :: k in WithoutStale(m, threshold) && k !in WithoutStaleCorrected(m, threshold) <==>
              k in m && m[k].lastRequest.None? && m[k].createdAt < threshold
  {
  }
}
