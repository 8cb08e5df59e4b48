/**
 * String helpers shared by the model: the two whitespace sets the system
 * strips with (Python's `str.strip` and JavaScript's `String.prototype.trim`),
 * stripping, splitting on one separator character, and the decimal rendering
 * of a natural number (as in a template string `${n}`).
 */
module Text {

  /** Characters for which Python's `str.isspace()` holds (and which `\s` matches). */
  predicate IsPySpace(c: char) {
    c == ' ' || ('\t' <= c <= '\r') || ('\U{1C}' <= c <= '\U{1F}')
    || c == '\U{85}' || c == '\U{A0}' || c == '\U{1680}' || ('\U{2000}' <= c <= '\U{200A}')
    || c == '\U{2028}' || c == '\U{2029}' || c == '\U{202F}' || c == '\U{205F}' || c == '\U{3000}'
  }

  /** WhiteSpace and LineTerminator of ECMAScript, the set `String.prototype.trim` removes. */
  predicate IsJsSpace(c: char) {
    c == ' ' || ('\t' <= c <= '\r') || c == '\U{A0}' || c == '\U{FEFF}' || c == '\U{1680}'
    || ('\U{2000}' <= c <= '\U{200A}') || c == '\U{2028}' || c == '\U{2029}' || c == '\U{202F}'
    || c == '\U{205F}' || c == '\U{3000}'
  }

  /** Drops the leading characters satisfying `ws`. */
  function LStrip(ws: char -> bool, s: string): string
    decreases |s|
  {
    if |s| > 0 && ws(s[0]) then LStrip(ws, s[1..]) else s
  }

  /** Drops the trailing characters satisfying `ws`. */
  function RStrip(ws: char -> bool, s: string): string
    decreases |s|
  {
    if |s| > 0 && ws(s[|s| - 1]) then RStrip(ws, s[..|s| - 1]) else s
  }

  /** Drops leading and trailing characters satisfying `ws`. */
  function Strip(ws: char -> bool, s: string): string {
    LStrip(ws, RStrip(ws, s))
  }

  /** `LStrip` removes exactly the maximal whitespace prefix. */
  lemma {:induction false} LStripSpec(ws: char -> bool, s: string)
    ensures var r := LStrip(ws, s);
      && |r| <= |s| && r == s[|s| - |r|..]
      && (forall i :: 0 <= i < |s| - |r| ==> ws(s[i]))
      && (r != [] ==> !ws(r[0]))
    decreases |s|
  {
    if |s| > 0 && ws(s[0]) {
      LStripSpec(ws, s[1..]);
    }
  }

  /** `RStrip` removes exactly the maximal whitespace suffix. */
  lemma {:induction false} RStripSpec(ws: char -> bool, s: string)
    ensures var r := RStrip(ws, s);
      && |r| <= |s| && r == s[..|r|]
      && (forall i :: |r| <= i < |s| ==> ws(s[i]))
      && (r != [] ==> !ws(r[|r| - 1]))
    decreases |s|
  {
    if |s| > 0 && ws(s[|s| - 1]) {
      RStripSpec(ws, s[..|s| - 1]);
    }
  }

  /** `Strip` keeps no whitespace at either end and is empty only for all-whitespace input. */
  lemma StripSpec(ws: char -> bool, s: string)
    ensures var r := Strip(ws, s);
      && |r| <= |s|
      && (r != [] ==> !ws(r[0]) && !ws(r[|r| - 1]))
      && (r == [] <==> forall i :: 0 <= i < |s| ==> ws(s[i]))
  {
    var t := RStrip(ws, s);
    RStripSpec(ws, s);
    LStripSpec(ws, t);
  }

  /** Python's `s.strip()`. */
  function PyStrip(s: string): string {
    Strip(IsPySpace, s)
  }

  /** JavaScript's `s.trim()`. */
  function JsTrim(s: string): string {
    Strip(IsJsSpace, s)
  }

  lemma RStripIdempotent(ws: char -> bool, s: string)
    ensures RStrip(ws, RStrip(ws, s)) == RStrip(ws, s)
  {
    RStripSpec(ws, s);
  }

  /** Stripping twice is stripping once. */
  lemma StripIdempotent(ws: char -> bool, s: string)
    ensures Strip(ws, Strip(ws, s)) == Strip(ws, s)
  {
    var r := Strip(ws, s);
    StripSpec(ws, s);
    assert RStrip(ws, r) == r;
    assert LStrip(ws, r) == r;
  }

  /** Trailing whitespace can be split off a concatenation piecewise. */
  lemma {:induction false} RStripConcat(ws: char -> bool, a: string, b: string)
    ensures RStrip(ws, a + b) == if RStrip(ws, b) == [] then RStrip(ws, a) else a + RStrip(ws, b)
    decreases |b|
  {
    if b == [] {
      assert a + b == a;
    } else if ws(b[|b| - 1]) {
      assert (a + b)[..|a + b| - 1] == a + b[..|b| - 1];
      RStripConcat(ws, a, b[..|b| - 1]);
    }
  }

  /**
   * A string that starts and ends with non-whitespace keeps itself as a prefix
   * when the whole is stripped; only the tail is stripped on the right.
   */
  lemma StripAfterWord(ws: char -> bool, word: string, w: string)
    requires word != [] && !ws(word[0]) && !ws(word[|word| - 1])
    ensures Strip(ws, word + w) == word + RStrip(ws, w)
  {
    RStripConcat(ws, word, w);
    assert RStrip(ws, word) == word;
    var t := word + RStrip(ws, w);
    assert t[0] == word[0];
  }

  /** Stripping ignores a trailing strip already applied. */
  lemma StripOfRStrip(ws: char -> bool, w: string)
    ensures Strip(ws, RStrip(ws, w)) == Strip(ws, w)
  {
    RStripIdempotent(ws, w);
  }

  /** A whitespace character added on either side does not survive stripping. */
  lemma StripPadded(ws: char -> bool, c: char, v: string, d: string)
    requires ws(c) && forall i :: 0 <= i < |d| ==> ws(d[i])
    ensures Strip(ws, [c] + v + d) == Strip(ws, v)
  {
    RStripConcat(ws, [c] + v, d);
    RStripSpec(ws, d);
    assert RStrip(ws, d) == [];
    RStripConcat(ws, [c], v);
    if RStrip(ws, v) == [] {
      assert RStrip(ws, [c]) == [];
    } else {
      var t := [c] + RStrip(ws, v);
      assert t[1..] == RStrip(ws, v);
    }
  }

  /** Regrouping a concatenation (stated once so that callers need not re-derive it). */
  lemma ConcatAssoc<T>(a: seq<T>, b: seq<T>, c: seq<T>)
    ensures a + b + c == a + (b + c)
  {
  }

  /**
   * Python's `s.split(sep)` for a one-character separator: the pieces between
   * consecutive separators, one more piece than there are separators.
   */
  function Split(s: string, sep: char): (r: seq<string>)
    ensures |r| >= 1
    decreases |s|
  {
    if s == [] then [[]]
    else
      var rest := Split(s[1..], sep);
      if s[0] == sep then [[]] + rest
      else [[s[0]] + rest[0]] + rest[1..]
  }

  /** `sep.join(parts)`, the inverse of `Split`. */
  function Join(parts: seq<string>, sep: char): (r: string)
    requires |parts| >= 1
    decreases |parts|
  {
    if |parts| == 1 then parts[0] else parts[0] + [sep] + Join(parts[1..], sep)
  }

  /** The pieces hold no separator, and joining them gives back the string. */
  lemma {:induction false} SplitSpec(s: string, sep: char)
    ensures var r := Split(s, sep);
      && (forall k :: 0 <= k < |r| ==> sep !in r[k])
      && Join(r, sep) == s
    decreases |s|
  {
    if s != [] {
      SplitSpec(s[1..], sep);
      var rest := Split(s[1..], sep);
      if s[0] != sep {
        assert [s[0]] + s[1..] == s;
        if |rest| > 1 {
          assert ([s[0]] + rest[0]) + [sep] + Join(rest[1..], sep) == [s[0]] + (rest[0] + [sep] + Join(rest[1..], sep));
        }
      }
    }
  }

  lemma {:induction false} SplitNoSep(s: string, sep: char)
    requires sep !in s
    ensures Split(s, sep) == [s]
    decreases |s|
  {
    if s != [] {
      SplitNoSep(s[1..], sep);
      assert [s[0]] + s[1..] == s;
    }
  }

  lemma {:induction false} SplitAtFirstSep(a: string, b: string, sep: char)
    requires sep !in a
    ensures Split(a + [sep] + b, sep) == [a] + Split(b, sep)
    decreases |a|
  {
    if a == [] {
      assert a + [sep] + b == [sep] + b;
      assert ([sep] + b)[1..] == b;
    } else {
      var s := a + [sep] + b;
      assert s[0] == a[0];
      assert s[1..] == a[1..] + [sep] + b;
      SplitAtFirstSep(a[1..], b, sep);
      assert [a[0]] + a[1..] == a;
    }
  }

  /** Splitting undoes joining pieces that do not contain the separator. */
  lemma {:induction false} SplitJoin(parts: seq<string>, sep: char)
    requires |parts| >= 1
    requires forall k :: 0 <= k < |parts| ==> sep !in parts[k]
    ensures Split(Join(parts, sep), sep) == parts
    decreases |parts|
  {
    if |parts| == 1 {
      SplitNoSep(parts[0], sep);
    } else {
      SplitJoin(parts[1..], sep);
      SplitAtFirstSep(parts[0], Join(parts[1..], sep), sep);
      assert [parts[0]] + parts[1..] == parts;
    }
  }

  /**
   * The length ECMAScript gives a string: its UTF-16 code units, one for a
   * character of the Basic Multilingual Plane and two (a surrogate pair)
   * for a character above U+FFFF.
   */
  function Utf16Length(s: string): (n: nat)
    ensures |s| <= n <= 2 * |s|
    ensures (forall i :: 0 <= i < |s| ==> s[i] as int <= 0xFFFF) ==> n == |s|
  {
    if s == [] then 0 else (if s[0] as int > 0xFFFF then 2 else 1) + Utf16Length(s[1..])
  }

  /** Code units add up over a concatenation. */
  lemma {:induction false} Utf16LengthAppend(a: string, b: string)
    ensures Utf16Length(a + b) == Utf16Length(a) + Utf16Length(b)
    decreases |a|
  {
    if a != [] {
      var ab := a + b;
      assert ab[0] == a[0] && ab[1..] == a[1..] + b;
      Utf16LengthAppend(a[1..], b);
      var h := if a[0] as int > 0xFFFF then 2 else 1;
      assert Utf16Length(ab) == h + Utf16Length(ab[1..]);
    } else {
      assert a + b == b;
    }
  }

  /** A hexadecimal digit, in either case. */
  predicate IsHexDigit(c: char) {
    ('0' <= c <= '9') || ('a' <= c <= 'f') || ('A' <= c <= 'F')
  }

  predicate IsDigit(c: char) {
    '0' as int <= c as int <= '9' as int
  }

  /** The value of a string of decimal digits. */
  function DecimalValue(s: string): nat
    requires forall i :: 0 <= i < |s| ==> IsDigit(s[i])
    decreases |s|
  {
    if s == [] then 0
    else
      assert IsDigit(s[|s| - 1]);
      DecimalValue(s[..|s| - 1]) * 10 + (s[|s| - 1] as int - '0' as int)
  }

  /** The decimal rendering of `n`, without sign or leading zeros (JavaScript's `${n}`). */
  function NatToString(n: nat): (r: string)
    ensures |r| >= 1 && forall i :: 0 <= i < |r| ==> IsDigit(r[i])
    ensures DecimalValue(r) == n
    ensures r[0] == '0' ==> n == 0
    decreases n
  {
    var last := [('0' as int + n % 10) as char];
    if n < 10 then last
    else
      var r := NatToString(n / 10) + last;
      assert r[..|r| - 1] == NatToString(n / 10);
      r
  }
}
