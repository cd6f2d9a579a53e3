/**
 * The object-store key of an upload: the upload time in milliseconds,
 * written in decimal, then an underscore, then the original file name with
 * every code unit outside [a-zA-Z0-9._-] replaced by an underscore.
 *
 * JavaScript strings are sequences of UTF-16 code units, and the replacing
 * regular expression has no `u` flag, so it works code unit by code unit:
 * a character outside the Basic Multilingual Plane (a surrogate pair)
 * becomes two underscores.
 */
module StorageKeys {
  import opened Wrappers

  /** A UTF-16 code unit. */
  newtype CodeUnit = u: int | 0 <= u < 0x1_0000

  /** A JavaScript string value. */
  type JsString = seq<CodeUnit>

  /** Date.now() is an ECMAScript time value: an integer within 8.64e15 of zero. */
  const MAX_TIME_VALUE := 8_640_000_000_000_000

  type TimeValue = t: int | -MAX_TIME_VALUE <= t <= MAX_TIME_VALUE

  const UNDERSCORE: CodeUnit := 0x5F
  const HYPHEN: CodeUnit := 0x2D
  const DOT: CodeUnit := 0x2E
  const DIGIT_ZERO: CodeUnit := 0x30

  predicate IsDigit(u: CodeUnit) {
    0x30 <= u <= 0x39
  }

  predicate IsUpper(u: CodeUnit) {
    0x41 <= u <= 0x5A
  }

  predicate IsLower(u: CodeUnit) {
    0x61 <= u <= 0x7A
  }

  /** Membership in the character class [a-zA-Z0-9._-]. */
  predicate IsSafe(u: CodeUnit) {
    IsLower(u) || IsUpper(u) || IsDigit(u) || u == DOT || u == UNDERSCORE || u == HYPHEN
  }

  predicate AllSafe(s: JsString) {
    forall i :: 0 <= i < |s| ==> IsSafe(s[i])
  }

  /** What the global replacement does to one code unit. */
  function SanitizeUnit(u: CodeUnit): CodeUnit {
    if IsSafe(u) then u else UNDERSCORE
  }

  /** originalname.replace(/[^a-zA-Z0-9._-]/g, '_') */
  function Sanitize(name: JsString): (safe: JsString)
    ensures |safe| == |name|
    ensures forall i :: 0 <= i < |name| ==> safe[i] == SanitizeUnit(name[i])
  {
    if name == [] then [] else [SanitizeUnit(name[0])] + Sanitize(name[1..])
  }

  /** Every code unit of a sanitised name is in the safe set. */
  lemma SanitizeOnlySafe(name: JsString)
    ensures AllSafe(Sanitize(name))
  {
  }

  /** Sanitising leaves a name alone exactly when it is already safe. */
  lemma SanitizeFixesSafeNames(name: JsString)
    ensures Sanitize(name) == name <==> AllSafe(name)
  {
    if Sanitize(name) == name {
      forall i | 0 <= i < |name| ensures IsSafe(name[i]) {
        assert SanitizeUnit(name[i]) == name[i];
      }
    }
  }

  lemma SanitizeIdempotent(name: JsString)
    ensures Sanitize(Sanitize(name)) == Sanitize(name)
  {
    SanitizeOnlySafe(name);
    SanitizeFixesSafeNames(Sanitize(name));
  }

  /** Two different names can share a sanitised form: "a b" and "a_b". */
  lemma SanitizeMergesNames()
    ensures var spaced: JsString, underscored: JsString := [0x61, 0x20, 0x62], [0x61, 0x5F, 0x62];
      spaced != underscored && Sanitize(spaced) == Sanitize(underscored)
  {
  }

  /** U+1F600 is the surrogate pair D83D DE00 and becomes two underscores. */
  lemma SanitizeSurrogatePair()
    ensures Sanitize([0xD83D, 0xDE00]) == [UNDERSCORE, UNDERSCORE]
  {
  }

  function DigitUnit(d: nat): (u: CodeUnit)
    requires d < 10
    ensures IsDigit(u)
  {
    (0x30 + d) as CodeUnit
  }

  function DigitValue(u: CodeUnit): (d: nat)
    requires IsDigit(u)
    ensures d < 10 && DigitUnit(d) == u
  {
    (u - DIGIT_ZERO) as nat
  }

  predicate AllDigits(s: JsString) {
    forall i :: 0 <= i < |s| ==> IsDigit(s[i])
  }

  /**
   * The decimal digits of n. Number.prototype.toString writes an integer this
   * way when it is below 1e21; the only callers pass magnitudes of time
   * values, which are at most 8.64e15.
   */
  function Decimal(n: nat): (digits: JsString)
    ensures |digits| >= 1 && AllDigits(digits)
    ensures digits[0] == DIGIT_ZERO ==> n == 0 && |digits| == 1
  {
    if n < 10 then [DigitUnit(n)] else Decimal(n / 10) + [DigitUnit(n % 10)]
  }

  /** The value of a string of decimal digits, most significant first. */
  function DecimalValue(digits: JsString): nat
    requires AllDigits(digits)
  {
    if digits == [] then 0
    else 10 * DecimalValue(digits[..|digits| - 1]) + DigitValue(digits[|digits| - 1])
  }

  lemma {:induction false} DecimalRoundTrip(n: nat)
    ensures DecimalValue(Decimal(n)) == n
  {
    if n >= 10 {
      var digits := Decimal(n);
      assert digits[..|digits| - 1] == Decimal(n / 10);
      DecimalRoundTrip(n / 10);
    }
  }

  /** `${t}` for an integral time value: a minus sign, if any, then decimal digits. */
  function TimeText(t: TimeValue): (text: JsString)
    ensures AllSafe(text)
    ensures forall i :: 0 <= i < |text| ==> text[i] != UNDERSCORE
    // a minus sign exactly for negative values, then digits without a leading zero
    ensures |text| >= 1 && (text[0] == HYPHEN <==> t < 0)
    ensures var digits := if t < 0 then text[1..] else text;
      |digits| >= 1 && AllDigits(digits) && (digits[0] == DIGIT_ZERO ==> t == 0 && |digits| == 1)
  {
    if t < 0 then [HYPHEN] + Decimal(-t) else Decimal(t)
  }

  /** Reads back the output of TimeText. */
  function ParseTime(text: JsString): Option<int> {
    if |text| >= 2 && text[0] == HYPHEN && AllDigits(text[1..]) then
      var magnitude: int := DecimalValue(text[1..]);
      Some(-magnitude)
    else if |text| >= 1 && AllDigits(text) then Some(DecimalValue(text))
    else None
  }

  lemma TimeRoundTrip(t: TimeValue)
    ensures ParseTime(TimeText(t)) == Some(t)
  {
    if t < 0 {
      assert TimeText(t)[1..] == Decimal(-t);
      DecimalRoundTrip(-t);
    } else {
      DecimalRoundTrip(t);
    }
  }

  /** The storage key `${timestamp}_${safeName}`. */
  function StorageKey(timestamp: TimeValue, originalname: JsString): (key: JsString)
    ensures AllSafe(key)
    ensures |key| == |TimeText(timestamp)| + 1 + |originalname|
  {
    SanitizeOnlySafe(originalname);
    TimeText(timestamp) + [UNDERSCORE] + Sanitize(originalname)
  }

  /** Position of the first occurrence of u in s, or |s| when there is none. */
  function IndexOf(s: JsString, u: CodeUnit): (i: nat)
    ensures i <= |s|
    ensures forall j :: 0 <= j < i ==> s[j] != u
    ensures i < |s| ==> s[i] == u
  {
    if s == [] then 0 else if s[0] == u then 0 else 1 + IndexOf(s[1..], u)
  }

  /** Splits a storage key at its first underscore into the time and the sanitised name. */
  function ParseKey(key: JsString): Option<(int, JsString)> {
    var i := IndexOf(key, UNDERSCORE);
    if i == |key| then None
    else
      match ParseTime(key[..i])
      case None => None
      case Some(t) => Some((t, key[i + 1..]))
  }

  lemma KeyRoundTrip(timestamp: TimeValue, originalname: JsString)
    ensures ParseKey(StorageKey(timestamp, originalname)) == Some((timestamp, Sanitize(originalname)))
  {
    var key := StorageKey(timestamp, originalname);
    var text := TimeText(timestamp);
    var i := IndexOf(key, UNDERSCORE);
    assert key[|text|] == UNDERSCORE;
    assert forall j :: 0 <= j < |text| ==> key[j] == text[j];
    assert i == |text|;
    assert key[..i] == text;
    assert key[i + 1..] == Sanitize(originalname);
    TimeRoundTrip(timestamp);
  }

  /** Two uploads get the same key exactly when they share the millisecond and the sanitised name. */
  lemma KeysCollideIff(t1: TimeValue, name1: JsString, t2: TimeValue, name2: JsString)
    ensures StorageKey(t1, name1) == StorageKey(t2, name2) <==> t1 == t2 && Sanitize(name1) == Sanitize(name2)
  {
    if StorageKey(t1, name1) == StorageKey(t2, name2) {
      KeyRoundTrip(t1, name1);
      KeyRoundTrip(t2, name2);
    }
  }
}
