/**
 * The few Joi rules the request schemas use, over a request part given as
 * a map from key to JSON value. With Joi's default preferences a value is
 * first converted (`trim()` trims a string), then checked: `string()`
 * refuses anything but a non-empty string, `min`/`max`/`length` count the
 * UTF-16 code units of the converted string (its ECMAScript `length`),
 * `hex()` admits upper- and lower-case digits, and an
 * object schema built with `keys` refuses keys it does not list.
 */
module JoiRules {
  import opened Text

  /** A JSON value as far as the schemas can tell: a string, or anything else. */
  datatype Value = Str(s: string) | NonString

  type Part = map<string, Value>

  /** Every key of the part is one the schema lists. */
  predicate KeysWithin(part: Part, allowed: set<string>) {
    forall k :: k in part ==> k in allowed
  }

  /** `Joi.string()`: a string other than the empty one. */
  predicate IsString(v: Value) {
    v.Str? && v.s != ""
  }

  /** `Joi.string().min(lo).max(hi).trim()`: a string whose trimmed form has `lo` to `hi` code units. */
  predicate TrimmedLengthIn(v: Value, lo: nat, hi: nat)
    requires 1 <= lo
  {
    v.Str? && lo <= Utf16Length(JsTrim(v.s)) <= hi
  }

  /** `Joi.string().hex().length(n)`: exactly `n` hexadecimal digits. */
  predicate HexOfLength(v: Value, n: nat) {
    v.Str? && |v.s| == n && forall i :: 0 <= i < |v.s| ==> IsHexDigit(v.s[i])
  }

  /** The value Joi hands on for a `trim()` rule: the string trimmed. */
  function Trimmed(v: Value): (w: Value)
    ensures v.Str? <==> w.Str?
    ensures v.Str? ==> w.s == JsTrim(v.s)
  {
    match v
    case Str(s) => Str(JsTrim(s))
    case NonString => NonString
  }

  /** The name rule of the schemas: trimmed, 3 to 255 characters. */
  predicate NameRule(v: Value) {
    TrimmedLengthIn(v, 3, 255)
  }

  /** The name rule in characters: a character above U+FFFF counts as two. */
  lemma NameRuleCounts(s: string)
    requires JsTrim(s) == s
    ensures NameRule(Str(s)) <==> 3 <= Utf16Length(s) <= 255
    ensures (forall i :: 0 <= i < |s| ==> s[i] as int <= 0xFFFF) ==> (NameRule(Str(s)) <==> 3 <= |s| <= 255)
  {
  }

  /** Two characters above U+FFFF make four code units, enough for the minimum of three. */
  lemma AstralPairIsAName(a: char, b: char)
    requires a as int > 0xFFFF && b as int > 0xFFFF
    requires JsTrim([a, b]) == [a, b]
    ensures NameRule(Str([a, b]))
  {
    Utf16LengthAppend([a], [b]);
  }

  /** A name keeps passing once trimmed, and trimming it again changes nothing. */
  lemma NameRuleStable(v: Value)
    requires NameRule(v)
    ensures NameRule(Trimmed(v)) && Trimmed(Trimmed(v)) == Trimmed(v)
  {
    StripIdempotent(IsJsSpace, v.s);
  }

  /** Spaces around a name do not count towards its length. */
  lemma PaddedName(s: string)
    ensures NameRule(Str(" " + s + " ")) <==> NameRule(Str(s))
  {
    StripPadded(IsJsSpace, ' ', s, " ");
    assert [' '] + s + " " == " " + s + " ";
  }
}
