/** Keyword-based bullying detection on chat messages (functions/index.js:946-1017):
    count the listed keywords the lower-cased message contains and derive a severity. */
module Bullying {
  import opened Outcomes
  import opened JsValues

  /** The keywords the detector looks for, in the source's order. */
  const BULLYING_KEYWORDS: seq<string> := [
    "tonto", "idiota", "estúpido", "burro", "inútil", "gordo", "feo", "perdedor", "nadie",
    "basura", "patético", "fracasado", "ridículo", "asco", "muérete", "mátate", "no sirves",
    "eres un", "callate", "cállate", "inservible", "débil", "te odio", "todos te odian",
    "nadie te quiere"]

  /** The keywords that make any match high severity. */
  const HIGH_SEVERITY_KEYWORDS: seq<string> := ["muérete", "mátate", "suicídate", "te odio", "todos te odian"]

  datatype Severity = NoSeverity | Low | Medium | High

  /** The detector's answer; a falsy message gets no `keywordCount`. */
  datatype BullyingReport = BullyingReport(hasBullying: bool, severity: Severity, keywordCount: Option<nat>)

  /** Lower-casing: ASCII and Latin-1 capitals map to their small letters. */
  function LowerChar(c: char): char {
    if 'A' <= c <= 'Z' || ('À' <= c <= 'Þ' && c != '×') then (c as int + 32) as char else c
  }

  function ToLower(s: string): (r: string)
    ensures |r| == |s| && forall i :: 0 <= i < |s| ==> r[i] == LowerChar(s[i])
  {
    seq(|s|, i requires 0 <= i < |s| => LowerChar(s[i]))
  }

  /** The keywords of `keywords` that `lower` contains, in list order. */
  function Matches(lower: string, keywords: seq<string>): (r: seq<string>)
    ensures |r| <= |keywords|
    ensures forall k :: k in r <==> k in keywords && Includes(lower, k)
  {
    if keywords == [] then []
    else
      var last := keywords[|keywords| - 1];
      assert keywords == keywords[..|keywords| - 1] + [last];
      Matches(lower, keywords[..|keywords| - 1]) + (if Includes(lower, last) then [last] else [])
  }

  predicate AnyHigh(matched: seq<string>, high: seq<string>) {
    exists k :: k in matched && k in high
  }

  /** The severity of at least one match. */
  function SeverityOf(count: nat, hasHigh: bool): Severity {
    if hasHigh || count >= 3 then High
    else if count >= 2 then Medium
    else Low
  }

  /** The detector for a keyword list and its high-severity sub-list. */
  function Assess(message: string, keywords: seq<string>, high: seq<string>): BullyingReport {
    if message == "" then BullyingReport(false, NoSeverity, None)
    else
      var matched := Matches(ToLower(message), keywords);
      BullyingReport(|matched| > 0,
                     if |matched| > 0 then SeverityOf(|matched|, AnyHigh(matched, high)) else NoSeverity,
                     Some(|matched|))
  }

  /** `detectBullying`. */
  method DetectBullying(message: string) returns (r: BullyingReport)
    ensures r == Assess(message, BULLYING_KEYWORDS, HIGH_SEVERITY_KEYWORDS)
  {
    if message == "" {
      return BullyingReport(false, NoSeverity, None);
    }
    var messageLower := ToLower(message);
    var matchCount, hasHighSeverity := CountKeywords(messageLower, BULLYING_KEYWORDS, HIGH_SEVERITY_KEYWORDS);
    var hasBullying := matchCount > 0;
    var severity := NoSeverity;
    if hasBullying {
      if hasHighSeverity || matchCount >= 3 {
        severity := High;
      } else if matchCount >= 2 {
        severity := Medium;
      } else {
        severity := Low;
      }
    }
    r := BullyingReport(hasBullying, severity, Some(matchCount));
  }

  /** The `forEach` over the keywords, counting matches and noting a high-severity one. */
  method CountKeywords(messageLower: string, keywords: seq<string>, high: seq<string>)
    returns (matchCount: nat, hasHighSeverity: bool)
    ensures matchCount == |Matches(messageLower, keywords)|
    ensures hasHighSeverity == AnyHigh(Matches(messageLower, keywords), high)
  {
    matchCount := 0;
    hasHighSeverity := false;
    for i := 0 to |keywords|
      invariant matchCount == |Matches(messageLower, keywords[..i])|
      invariant hasHighSeverity == AnyHigh(Matches(messageLower, keywords[..i]), high)
    {
      var keyword := keywords[i];
      assert keywords[..i + 1][..i] == keywords[..i];
      if Includes(messageLower, keyword) {
        matchCount := matchCount + 1;
        if keyword in high {
          hasHighSeverity := true;
        }
      }
    }
    assert keywords[..|keywords|] == keywords;
  }

  // ---------------------------------------------------------------------------
  // Properties
  // ---------------------------------------------------------------------------

  /** What a report means: bullying exactly when some keyword occurs; high severity
      exactly when a high-severity keyword occurs or three keywords do; medium for two,
      low for one; the count never exceeds the list. An empty message is clean. */
  lemma AssessMeaning(message: string, keywords: seq<string>, high: seq<string>)
    ensures var r := Assess(message, keywords, high);
            var lower := ToLower(message);
            var n := |Matches(lower, keywords)|;
            var anyHigh := exists k :: k in keywords && k in high && Includes(lower, k);
            && (message == "" ==> r == BullyingReport(false, NoSeverity, None))
            && (message != "" ==>
                  && r.keywordCount == Some(n) && n <= |keywords|
                  && (r.hasBullying <==> exists k :: k in keywords && Includes(lower, k))
                  && (r.severity == NoSeverity <==> !r.hasBullying)
                  && (r.severity == High <==> r.hasBullying && (anyHigh || n >= 3))
                  && (r.severity == Medium <==> !anyHigh && n == 2)
                  && (r.severity == Low <==> !anyHigh && n == 1))
  {
    if message != "" {
      var lower := ToLower(message);
      var m := Matches(lower, keywords);
      if |m| > 0 {
        assert m[0] in m;
      }
    }
  }

  /** A message that contains none of the characters of `c` cannot contain `k`. */
  lemma MissingCharExcludes(s: string, k: string, c: char)
    requires c in k && c !in s
    ensures !Includes(s, k)
  {
  }

  /** As written, "suicídate" is a high-severity keyword that the loop never looks for:
      a message saying only that is reported clean. */
  lemma UnlistedHighSeverityKeyword()
    ensures "suicídate" in HIGH_SEVERITY_KEYWORDS && "suicídate" !in BULLYING_KEYWORDS
    ensures Assess("suicídate", BULLYING_KEYWORDS, HIGH_SEVERITY_KEYWORDS) == BullyingReport(false, NoSeverity, Some(0))
  {
    var msg := "suicídate";
    AlreadyLower(msg);
    KeywordLetters();
    LettersAbsent(msg);
    NoneIncluded(msg, BULLYING_KEYWORDS);
    AssessMeaning(msg, BULLYING_KEYWORDS, HIGH_SEVERITY_KEYWORDS);
  }

  lemma AlreadyLower(msg: string)
    requires msg == "suicídate"
    ensures ToLower(msg) == msg
  {
  }

  /** "suicídate" has none of the five letters. */
  lemma LettersAbsent(msg: string)
    requires msg == "suicídate"
    ensures 'o' !in msg && 'n' !in msg && 'b' !in msg && 'm' !in msg && 'l' !in msg
  {
  }

  /** Keywords that each contain one of five letters do not occur in a message that
      has none of them. */
  lemma NoneIncluded(msg: string, keywords: seq<string>)
    requires forall k :: k in keywords ==> 'o' in k || 'n' in k || 'b' in k || 'm' in k || 'l' in k
    requires 'o' !in msg && 'n' !in msg && 'b' !in msg && 'm' !in msg && 'l' !in msg
    ensures forall k :: k in keywords ==> !Includes(msg, k)
  {
    forall k | k in keywords ensures !Includes(msg, k) {
      if 'o' in k { MissingCharExcludes(msg, k, 'o'); }
      else if 'n' in k { MissingCharExcludes(msg, k, 'n'); }
      else if 'b' in k { MissingCharExcludes(msg, k, 'b'); }
      else if 'm' in k { MissingCharExcludes(msg, k, 'm'); }
      else { MissingCharExcludes(msg, k, 'l'); }
    }
  }

  /** Each listed keyword contains one of five letters. */
  lemma KeywordLetters()
    ensures forall k :: k in BULLYING_KEYWORDS ==> 'o' in k || 'n' in k || 'b' in k || 'm' in k || 'l' in k
  {
  }

  /** The keyword list with the missing high-severity keyword added. */
  const CORRECTED_KEYWORDS: seq<string> := BULLYING_KEYWORDS + ["suicídate"]

  /** With the corrected list every high-severity keyword is detected: any message that
      contains one is reported as high severity. */
  lemma HighSeverityKeywordsDetected(message: string, k: string)
    requires k in HIGH_SEVERITY_KEYWORDS && Includes(ToLower(message), k)
    ensures message != ""
    ensures Assess(message, CORRECTED_KEYWORDS, HIGH_SEVERITY_KEYWORDS).severity == High
  {
    assert k in CORRECTED_KEYWORDS;
    AssessMeaning(message, CORRECTED_KEYWORDS, HIGH_SEVERITY_KEYWORDS);
  }
}
