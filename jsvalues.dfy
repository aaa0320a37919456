/** The few pieces of JavaScript value semantics the backend's logic depends on:
    dynamically typed request fields, truthiness, `String.prototype.trim`, the default
    string order used by `Array.prototype.sort`, and substring search. */
module JsValues {
  import opened Outcomes

  /** A JavaScript number: finite, NaN, or one of the two infinities. */
  datatype JsNumber = Finite(x: real) | NaN | Infinity(negative: bool)

  /** A request field as it arrives in `request.data`. An object or array is kept
      as its JSON text, which is what `JSON.stringify` returns for it. */
  datatype JsValue =
    | Undefined
    | Null
    | Bool(b: bool)
    | Number(n: JsNumber)
    | Str(s: string)
    | Object(json: string)

  /** JavaScript truthiness (`if (v)`, `!v`). */
  predicate Truthy(v: JsValue) {
    match v
    case Undefined => false
    case Null => false
    case Bool(b) => b
    case Number(n) => n.Infinity? || (n.Finite? && n.x != 0.0)
    case Str(s) => s != ""
    case Object(_) => true
  }

  // ---------------------------------------------------------------------------
  // Numeric comparison against a finite bound, as `>=` and `<=` behave on numbers
  // ---------------------------------------------------------------------------

  predicate AtLeast(n: JsNumber, bound: real) {
    match n
    case Finite(x) => x >= bound
    case NaN => false
    case Infinity(negative) => !negative
  }

  predicate AtMost(n: JsNumber, bound: real) {
    match n
    case Finite(x) => x <= bound
    case NaN => false
    case Infinity(negative) => negative
  }

  // ---------------------------------------------------------------------------
  // String.prototype.trim
  // ---------------------------------------------------------------------------

  /** The characters `trim` removes: ECMAScript WhiteSpace and LineTerminator. */
  predicate IsWhitespace(c: char) {
    c == '\t' || c == '\n' || c == '\U{B}' || c == '\U{C}' || c == '\r' || c == ' ' ||
    c == '\U{A0}' || c == '\U{1680}' || ('\U{2000}' <= c <= '\U{200A}') ||
    c == '\U{2028}' || c == '\U{2029}' || c == '\U{202F}' || c == '\U{205F}' ||
    c == '\U{3000}' || c == '\U{FEFF}'
  }

  predicate AllWhitespace(s: string) {
    forall i :: 0 <= i < |s| ==> IsWhitespace(s[i])
  }

  /** Drops leading whitespace: the result is a suffix of `s`, what was dropped is all
      whitespace, and the result does not start with whitespace. */
  function TrimStart(s: string): (r: string)
    ensures |r| <= |s| && r == s[|s| - |r|..]
    ensures AllWhitespace(s[..|s| - |r|])
    ensures r != [] ==> !IsWhitespace(r[0])
  {
    if s != [] && IsWhitespace(s[0]) then
      var r := TrimStart(s[1..]);
      assert s[1..][..|s[1..]| - |r|] == s[1..|s| - |r|];
      r
    else s
  }

  /** Drops trailing whitespace: a prefix of `s`, what was dropped is all whitespace,
      and the result does not end with whitespace. */
  function TrimEnd(s: string): (r: string)
    ensures |r| <= |s| && r == s[..|r|]
    ensures AllWhitespace(s[|r|..])
    ensures r != [] ==> !IsWhitespace(r[|r| - 1])
  {
    if s != [] && IsWhitespace(s[|s| - 1]) then
      var r := TrimEnd(s[..|s| - 1]);
      assert s[..|s| - 1][|r|..] == s[|r|..|s| - 1];
      assert s[|r|..] == s[|r|..|s| - 1] + [s[|s| - 1]];
      r
    else s
  }

  function Trim(s: string): string {
    TrimEnd(TrimStart(s))
  }

  /** `s.trim().length > 0` holds exactly when `s` has a character that is not whitespace. */
  lemma TrimmedNonEmpty(s: string)
    ensures |Trim(s)| > 0 <==> exists i :: 0 <= i < |s| && !IsWhitespace(s[i])
  {
    var t := TrimStart(s);
    if |Trim(s)| > 0 {
      var r := TrimEnd(t);
      assert r[0] == t[0] == s[|s| - |t|];
    } else {
      assert TrimEnd(t)[0..] == [] && t[0..] == t;
      assert s[..|s| - |t|] == s;
    }
  }

  // ---------------------------------------------------------------------------
  // String.prototype.length
  // ---------------------------------------------------------------------------

  /** A character outside the Basic Multilingual Plane is a surrogate pair in UTF-16. */
  predicate IsAstral(c: char) {
    c as int > 0xFFFF
  }

  /** `s.length`: the number of UTF-16 code units, two for each astral character. */
  function Utf16Length(s: string): (n: nat)
    ensures |s| <= n <= 2 * |s|
  {
    if s == [] then 0
    else Utf16Length(s[..|s| - 1]) + (if IsAstral(s[|s| - 1]) then 2 else 1)
  }

  /** The length of a string without astral characters is its number of characters. */
  lemma {:induction false} BmpUtf16Length(s: string)
    requires forall i :: 0 <= i < |s| ==> !IsAstral(s[i])
    ensures Utf16Length(s) == |s|
  {
    if s != [] {
      BmpUtf16Length(s[..|s| - 1]);
    }
  }

  /** Each astral character counts twice: a string of `n` of them is `2 * n` units long. */
  lemma {:induction false} AstralUtf16Length(s: string)
    requires forall i :: 0 <= i < |s| ==> IsAstral(s[i])
    ensures Utf16Length(s) == 2 * |s|
  {
    if s != [] {
      AstralUtf16Length(s[..|s| - 1]);
    }
  }

  // ---------------------------------------------------------------------------
  // The default order of Array.prototype.sort on strings
  // ---------------------------------------------------------------------------

  /** Lexicographic order on character codes: `a` sorts no later than `b`. */
  predicate StrLe(a: string, b: string) {
    if a == [] then true
    else if b == [] then false
    else if a[0] != b[0] then a[0] < b[0]
    else StrLe(a[1..], b[1..])
  }

  lemma {:induction false} StrLeTotal(a: string, b: string)
    ensures StrLe(a, b) || StrLe(b, a)
  {
    if a != [] && b != [] && a[0] == b[0] {
      StrLeTotal(a[1..], b[1..]);
    }
  }

  lemma {:induction false} StrLeAntisymmetric(a: string, b: string)
    requires StrLe(a, b) && StrLe(b, a)
    ensures a == b
  {
    if a != [] && b != [] {
      StrLeAntisymmetric(a[1..], b[1..]);
      assert a == [a[0]] + a[1..];
      assert b == [b[0]] + b[1..];
    }
  }

  lemma {:induction false} StrLeReflexive(a: string)
    ensures StrLe(a, a)
  {
    if a != [] {
      StrLeReflexive(a[1..]);
    }
  }

  lemma {:induction false} StrLeTransitive(a: string, b: string, c: string)
    requires StrLe(a, b) && StrLe(b, c)
    ensures StrLe(a, c)
  {
    if a != [] && b != [] && c != [] && a[0] == b[0] && b[0] == c[0] {
      StrLeTransitive(a[1..], b[1..], c[1..]);
    }
  }

  /** `[a, b].sort()`: the two ids in ascending order. */
  function SortPair(a: string, b: string): (r: seq<string>)
    ensures |r| == 2 && multiset(r) == multiset{a, b}
    ensures StrLe(r[0], r[1])
  {
    StrLeTotal(a, b);
    if StrLe(a, b) then [a, b] else [b, a]
  }

  /** The sorted pair does not depend on which party asked: it is the pair's identity. */
  lemma SortPairCanonical(a: string, b: string)
    ensures SortPair(a, b) == SortPair(b, a)
  {
    if StrLe(a, b) && StrLe(b, a) {
      StrLeAntisymmetric(a, b);
    }
  }

  // ---------------------------------------------------------------------------
  // Substring search (String.prototype.includes, indexOf, split)
  // ---------------------------------------------------------------------------

  predicate OccursAt(s: string, k: string, i: nat) {
    i + |k| <= |s| && s[i..i + |k|] == k
  }

  /** The first occurrence of `k` in `s` at or after position `from`. */
  function IndexOfFrom(s: string, k: string, from: nat): (r: Option<nat>)
    decreases |s| - from
    ensures r.Some? ==> from <= r.value && OccursAt(s, k, r.value)
    ensures r.Some? ==> forall j :: from <= j < r.value ==> !OccursAt(s, k, j)
    ensures r.None? ==> forall j :: from <= j ==> !OccursAt(s, k, j)
  {
    if from + |k| > |s| then None
    else if s[from..from + |k|] == k then Some(from)
    else IndexOfFrom(s, k, from + 1)
  }

  function IndexOf(s: string, k: string): Option<nat> {
    IndexOfFrom(s, k, 0)
  }

  /** `s.includes(k)`. */
  predicate Includes(s: string, k: string) {
    IndexOf(s, k).Some?
  }

  lemma IncludesIff(s: string, k: string)
    ensures Includes(s, k) <==> exists i: nat :: OccursAt(s, k, i)
  {
    if Includes(s, k) {
      assert OccursAt(s, k, IndexOf(s, k).value);
    }
  }
}
