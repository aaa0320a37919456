/** The input validators of the callable functions (functions/index.js:111-229).
    Each returns the first failing check, in the order the source tests them. */
module Validation {
  import opened JsValues

  datatype ParamError =
    | ChannelNameInvalid   // "channelName debe ser un string válido (máx 64 caracteres)"
    | UidInvalid           // "uid debe ser un número válido entre 0 y 4294967295"
    | ChannelNameCharset   // "channelName solo puede contener letras, números, guiones y guiones bajos"
    | ChildIdInvalid       // "childId debe ser un string válido"
    | DaysBackInvalid      // "daysBack debe ser un número entre 1 y 90"
    | ParentIdInvalid      // "parentId debe ser un string válido"
    | CodeInvalid          // "code debe ser un string válido (máx 20 caracteres)"
    | SameIds              // "parentId y childId no pueden ser iguales"

  datatype Verdict = Valid | Invalid(error: ParamError)

  const MAX_UID: real := 4294967295.0

  /** `isValidString(value, maxLength)`: a string, not blank after trimming, at most
      `maxLength` UTF-16 code units long. */
  predicate IsValidString(v: JsValue, maxLength: int) {
    v.Str? && |Trim(v.s)| > 0 && Utf16Length(v.s) <= maxLength
  }

  /** `isValidNumber(value, min, max)`: a number, not NaN, and `min <= value <= max`. */
  predicate IsValidNumber(v: JsValue, min: real, max: real) {
    v.Number? && !v.n.NaN? && AtLeast(v.n, min) && AtMost(v.n, max)
  }

  /** A valid string has a character that is not whitespace and fits the limit in
      UTF-16 code units; without astral characters that is its number of characters. */
  lemma IsValidStringMeans(v: JsValue, maxLength: int)
    ensures IsValidString(v, maxLength) <==>
              v.Str? && Utf16Length(v.s) <= maxLength && exists i :: 0 <= i < |v.s| && !IsWhitespace(v.s[i])
    ensures v.Str? && (forall i :: 0 <= i < |v.s| ==> !IsAstral(v.s[i])) ==>
              (IsValidString(v, maxLength) <==>
                 |v.s| <= maxLength && exists i :: 0 <= i < |v.s| && !IsWhitespace(v.s[i]))
  {
    if v.Str? {
      TrimmedNonEmpty(v.s);
      if forall i :: 0 <= i < |v.s| ==> !IsAstral(v.s[i]) {
        BmpUtf16Length(v.s);
      }
    }
  }

  /** A string of astral characters (emoji, say) passes only at half the limit: each of
      them is two code units of `.length`. */
  lemma AstralStringsCountTwice(v: JsValue, maxLength: int)
    requires v.Str? && forall i :: 0 <= i < |v.s| ==> IsAstral(v.s[i])
    ensures IsValidString(v, maxLength) ==> 2 * |v.s| <= maxLength
  {
    AstralUtf16Length(v.s);
  }

  /** With finite bounds, only a finite number inside them is valid: NaN and both
      infinities are rejected. */
  lemma IsValidNumberMeans(v: JsValue, min: real, max: real)
    ensures IsValidNumber(v, min, max) <==> v.Number? && v.n.Finite? && min <= v.n.x <= max
  {
  }

  /** A falsy value is never a valid string, so the `!x ||` guard in front of each
      `isValidString` call never changes a verdict. */
  lemma FalsyIsNotValidString(v: JsValue, maxLength: int)
    ensures !Truthy(v) ==> !IsValidString(v, maxLength)
  {
  }

  /** One character of the pattern `/^[a-zA-Z0-9_-]+$/`. */
  predicate IsChannelChar(c: char) {
    ('a' <= c <= 'z') || ('A' <= c <= 'Z') || ('0' <= c <= '9') || c == '_' || c == '-'
  }

  predicate MatchesChannelPattern(s: string) {
    |s| > 0 && forall i :: 0 <= i < |s| ==> IsChannelChar(s[i])
  }

  /** A name of the channel pattern is ASCII, so its `.length` is its number of characters. */
  lemma PatternLength(v: JsValue)
    ensures v.Str? && MatchesChannelPattern(v.s) ==> Utf16Length(v.s) == |v.s|
  {
    if v.Str? && MatchesChannelPattern(v.s) {
      BmpUtf16Length(v.s);
    }
  }

  datatype AgoraTokenParams = AgoraTokenParams(channelName: JsValue, uid: JsValue)

  /** `validateAgoraTokenParams`: channel name first, then uid, then the channel name's
      character set. */
  function ValidateAgoraTokenParams(p: AgoraTokenParams): (r: Verdict)
    ensures r == Invalid(ChannelNameInvalid) <==> !IsValidString(p.channelName, 64)
    ensures r == Invalid(UidInvalid) <==>
              IsValidString(p.channelName, 64) && !IsValidNumber(p.uid, 0.0, MAX_UID)
    ensures r.Valid? <==>
              && p.channelName.Str? && |p.channelName.s| <= 64
              && MatchesChannelPattern(p.channelName.s)
              && p.uid.Number? && p.uid.n.Finite? && 0.0 <= p.uid.n.x <= MAX_UID
  {
    IsValidNumberMeans(p.uid, 0.0, MAX_UID);
    PatternIsNotBlank(p.channelName);
    FalsyIsNotValidString(p.channelName, 64);
    PatternLength(p.channelName);
    if !Truthy(p.channelName) || !IsValidString(p.channelName, 64) then
      Invalid(ChannelNameInvalid)
    else if p.uid == Undefined || !IsValidNumber(p.uid, 0.0, MAX_UID) then
      Invalid(UidInvalid)
    else if !MatchesChannelPattern(p.channelName.s) then
      Invalid(ChannelNameCharset)
    else
      Valid
  }

  /** A name that matches the channel pattern is never blank. */
  lemma PatternIsNotBlank(v: JsValue)
    ensures v.Str? && MatchesChannelPattern(v.s) ==> IsValidString(v, |v.s|)
  {
    if v.Str? && MatchesChannelPattern(v.s) {
      TrimmedNonEmpty(v.s);
      PatternLength(v);
      assert !IsWhitespace(v.s[0]);
    }
  }

  datatype ReportParams = ReportParams(childId: JsValue, daysBack: JsValue)

  /** `validateReportParams`: `daysBack` may be left out, but if present (even as
      `null`) it must be a number from 1 to 90. */
  function ValidateReportParams(p: ReportParams): (r: Verdict)
    ensures r.Valid? <==>
              IsValidString(p.childId, 128) &&
              (p.daysBack == Undefined ||
               (p.daysBack.Number? && p.daysBack.n.Finite? && 1.0 <= p.daysBack.n.x <= 90.0))
    ensures r == Invalid(ChildIdInvalid) <==> !IsValidString(p.childId, 128)
    ensures r.Invalid? ==> r.error in {ChildIdInvalid, DaysBackInvalid}
  {
    IsValidNumberMeans(p.daysBack, 1.0, 90.0);
    FalsyIsNotValidString(p.childId, 128);
    if !Truthy(p.childId) || !IsValidString(p.childId, 128) then
      Invalid(ChildIdInvalid)
    else if p.daysBack != Undefined && !IsValidNumber(p.daysBack, 1.0, 90.0) then
      Invalid(DaysBackInvalid)
    else
      Valid
  }

  datatype LinkParams = LinkParams(parentId: JsValue, childId: JsValue, code: JsValue)

  /** `validateLinkParams`: parent id, child id, then the optional code (at most 20
      characters), then that the two ids differ. */
  function ValidateLinkParams(p: LinkParams): (r: Verdict)
    ensures r == Invalid(ParentIdInvalid) <==> !IsValidString(p.parentId, 128)
    ensures r == Invalid(ChildIdInvalid) <==>
              IsValidString(p.parentId, 128) && !IsValidString(p.childId, 128)
    ensures r == Invalid(CodeInvalid) <==>
              IsValidString(p.parentId, 128) && IsValidString(p.childId, 128) &&
              p.code != Undefined && !IsValidString(p.code, 20)
    ensures r.Valid? <==>
              && IsValidString(p.parentId, 128) && IsValidString(p.childId, 128)
              && (p.code == Undefined || IsValidString(p.code, 20))
              && p.parentId.s != p.childId.s
  {
    FalsyIsNotValidString(p.parentId, 128);
    FalsyIsNotValidString(p.childId, 128);
    if !Truthy(p.parentId) || !IsValidString(p.parentId, 128) then
      Invalid(ParentIdInvalid)
    else if !Truthy(p.childId) || !IsValidString(p.childId, 128) then
      Invalid(ChildIdInvalid)
    else if p.code != Undefined && !IsValidString(p.code, 20) then
      Invalid(CodeInvalid)
    else if p.parentId == p.childId then
      Invalid(SameIds)
    else
      Valid
  }

  /** Once the parameters are valid, `if (code)` holds exactly when a code string was
      sent; an explicit `null` code is refused rather than treated as absent. */
  lemma ValidLinkCodeTruthiness(p: LinkParams)
    requires ValidateLinkParams(p).Valid?
    ensures Truthy(p.code) <==> p.code.Str?
    ensures p.code.Str? ==> 0 < |p.code.s| && Utf16Length(p.code.s) <= 20 && |p.code.s| <= 20
  {
  }

  lemma NullCodeRefused(p: LinkParams)
    requires IsValidString(p.parentId, 128) && IsValidString(p.childId, 128)
    requires p.code == Null
    ensures ValidateLinkParams(p) == Invalid(CodeInvalid)
  {
  }
}
