/**
 * The JavaScript string built-ins that the routes and components rely on,
 * written out over Dafny strings: the ASCII part of `toLowerCase`, `trim`,
 * `includes`, `Array.prototype.join`, `split('.').pop()`, the
 * `replace(/\.[^.]+$/, '')` that drops a file extension, and the decimal
 * rendering of a non-negative integer inside a template literal.
 */
module Strings {

  const CRLF: string := "\r\n"

  // ------------------------------------------------------------------ case

  /** `toLowerCase` on one character, restricted to ASCII: 'A'..'Z' become 'a'..'z'. */
  function LowerChar(c: char): char
  {
    if 'A' <= c <= 'Z' then (c as int + 32) as char else c
  }

  /** `toLowerCase` restricted to ASCII letters; every other character is kept. */
  function AsciiLower(s: string): string
  {
    seq(|s|, i requires 0 <= i < |s| => LowerChar(s[i]))
  }

  lemma AsciiLowerIdempotent(s: string)
    ensures AsciiLower(AsciiLower(s)) == AsciiLower(s)
  {
  }

  // ------------------------------------------------------------- substrings

  /** `t` occurs in `s` starting at position `i`. */
  predicate OccursAt(s: string, t: string, i: int)
  {
    0 <= i && i + |t| <= |s| && s[i..i + |t|] == t
  }

  /** `s.includes(t)`. */
  predicate Contains(s: string, t: string)
  {
    exists i | 0 <= i <= |s| :: OccursAt(s, t, i)
  }

  lemma ContainsEmpty(s: string)
    ensures Contains(s, "")
  {
    assert OccursAt(s, "", 0);
  }

  /** An occurrence of `t` inside an occurrence of `u` is an occurrence of `t` in `s`. */
  lemma ContainsTransitive(s: string, u: string, t: string)
    requires Contains(s, u) && Contains(u, t)
    ensures Contains(s, t)
  {
    var i :| 0 <= i <= |s| && OccursAt(s, u, i);
    var j :| 0 <= j <= |u| && OccursAt(u, t, j);
    assert i + j + |t| <= |s|;
    assert u == s[i..i + |u|];
    forall k | 0 <= k < |t| ensures s[i + j..i + j + |t|][k] == t[k] {
      assert t[k] == u[j + k] == s[i + j + k];
    }
    assert OccursAt(s, t, i + j);
  }

  /** `t` cannot occur in `s` when one of its characters is missing from `s`. */
  lemma NotContainsChar(s: string, t: string, k: nat)
    requires k < |t| && t[k] !in s
    ensures !Contains(s, t)
  {
    forall i | 0 <= i <= |s| ensures !OccursAt(s, t, i) {
      if i + |t| <= |s| {
        assert s[i..i + |t|][k] == s[i + k];
      }
    }
  }

  /** The regular-expression `.`: any character except a line terminator. */
  predicate IsRegexDot(c: char)
  {
    c != '\n' && c != '\r' && c != '\U{2028}' && c != '\U{2029}'
  }

  /** The pattern `first.?second` matches at `i`: `first`, at most one `.` character, then `second`. */
  predicate OptionalGapAt(s: string, first: string, second: string, i: int)
  {
    && OccursAt(s, first, i)
    && (|| OccursAt(s, second, i + |first|)
        || (i + |first| < |s| && IsRegexDot(s[i + |first|]) && OccursAt(s, second, i + |first| + 1)))
  }

  /** The pattern `first.?second` matches somewhere in `s`. */
  predicate OptionalGap(s: string, first: string, second: string)
  {
    exists i | 0 <= i <= |s| :: OptionalGapAt(s, first, second, i)
  }

  /** Whatever `first.?second` matches contains `first`. */
  lemma OptionalGapContainsFirst(s: string, first: string, second: string)
    requires OptionalGap(s, first, second)
    ensures Contains(s, first)
  {
  }

  /** Whatever `first.?second` matches contains `second`. */
  lemma OptionalGapContainsSecond(s: string, first: string, second: string)
    requires OptionalGap(s, first, second)
    ensures Contains(s, second)
  {
    var i :| 0 <= i <= |s| && OptionalGapAt(s, first, second, i);
    if OccursAt(s, second, i + |first|) {
      assert 0 <= i + |first| <= |s|;
    } else {
      assert 0 <= i + |first| + 1 <= |s|;
    }
  }

  // ------------------------------------------------------------------ join

  /** `xs.join(sep)`: the elements with `sep` between neighbours and nowhere else. */
  function Join(xs: seq<string>, sep: string): string
  {
    if |xs| == 0 then "" else if |xs| == 1 then xs[0] else xs[0] + sep + Join(xs[1..], sep)
  }

  /** Every element appears in the joined text. */
  lemma {:induction false} JoinContainsElement(xs: seq<string>, sep: string, k: nat)
    requires k < |xs|
    ensures Contains(Join(xs, sep), xs[k])
  {
    if |xs| == 1 {
      assert OccursAt(Join(xs, sep), xs[0], 0);
    } else {
      var head := xs[0] + sep;
      var tail := Join(xs[1..], sep);
      assert Join(xs, sep) == head + tail;
      if k == 0 {
        assert (head + tail)[0..|xs[0]|] == xs[0];
        assert OccursAt(Join(xs, sep), xs[0], 0);
      } else {
        JoinContainsElement(xs[1..], sep, k - 1);
        ContainsInSuffix(head, tail, xs[k]);
      }
    }
  }

  /** An occurrence in `a` is an occurrence in `a + b`. */
  lemma ContainsInPrefix(a: string, b: string, t: string)
    requires Contains(a, t)
    ensures Contains(a + b, t)
  {
    var i :| 0 <= i <= |a| && OccursAt(a, t, i);
    assert (a + b)[i..i + |t|] == a[i..i + |t|];
    assert OccursAt(a + b, t, i);
  }

  /** An occurrence in `b` is an occurrence in `a + b`. */
  lemma ContainsInSuffix(a: string, b: string, t: string)
    requires Contains(b, t)
    ensures Contains(a + b, t)
  {
    var i :| 0 <= i <= |b| && OccursAt(b, t, i);
    assert (a + b)[|a| + i..|a| + i + |t|] == b[i..i + |t|];
    assert OccursAt(a + b, t, |a| + i);
  }

  // ------------------------------------------------------------------ trim

  /**
   * The characters `String.prototype.trim` removes at both ends: the
   * WhiteSpace and LineTerminator code points of ECMAScript.
   */
  predicate IsJsWhitespace(c: char)
  {
    || c == '\t' || c == '\n' || c == '\U{000B}' || c == '\U{000C}' || c == '\r' || c == ' '
    || c == '\U{00A0}' || c == '\U{1680}' || ('\U{2000}' <= c <= '\U{200A}')
    || c == '\U{2028}' || c == '\U{2029}' || c == '\U{202F}' || c == '\U{205F}'
    || c == '\U{3000}' || c == '\U{FEFF}'
  }

  /** How many whitespace characters `s` starts with. */
  function LeadingWhitespace(s: string): (k: nat)
    ensures k <= |s|
    ensures forall i :: 0 <= i < k ==> IsJsWhitespace(s[i])
    ensures k < |s| ==> !IsJsWhitespace(s[k])
  {
    if |s| > 0 && IsJsWhitespace(s[0]) then 1 + LeadingWhitespace(s[1..]) else 0
  }

  /** Where the trailing run of whitespace of `s` begins (`|s|` when there is none). */
  function TrailingStart(s: string): (k: nat)
    ensures k <= |s|
    ensures forall i :: k <= i < |s| ==> IsJsWhitespace(s[i])
    ensures k > 0 ==> !IsJsWhitespace(s[k - 1])
  {
    if |s| > 0 && IsJsWhitespace(s[|s| - 1]) then TrailingStart(s[..|s| - 1]) else |s|
  }

  /** `s.trim()`: blank exactly when `s` is all whitespace, never starting or ending with whitespace. */
  function Trim(s: string): (r: string)
    ensures r == "" <==> forall i :: 0 <= i < |s| ==> IsJsWhitespace(s[i])
    ensures r != "" ==> !IsJsWhitespace(r[0]) && !IsJsWhitespace(r[|r| - 1])
    ensures exists a, b :: && 0 <= a <= b <= |s| && r == s[a..b]
                           && (forall i :: 0 <= i < a ==> IsJsWhitespace(s[i]))
                           && (forall i :: b <= i < |s| ==> IsJsWhitespace(s[i]))
  {
    var a := LeadingWhitespace(s);
    var b := TrailingStart(s);
    if b <= a then
      assert s[a..a] == "";
      ""
    else s[a..b]
  }

  /** `trim` removes exactly the whitespace at both ends: when there is none, it changes nothing. */
  lemma TrimUnchanged(s: string)
    requires s != "" ==> !IsJsWhitespace(s[0]) && !IsJsWhitespace(s[|s| - 1])
    ensures Trim(s) == s
  {
  }

  // --------------------------------------------------------------- numbers

  function DigitChar(d: nat): char
    requires d < 10
  {
    ('0' as int + d) as char
  }

  predicate AllDigits(s: string)
  {
    forall i :: 0 <= i < |s| ==> '0' <= s[i] <= '9'
  }

  /** `${n}` for a non-negative integer: decimal digits, no leading zero. */
  function NatToDecimal(n: nat): (r: string)
    ensures |r| > 0 && AllDigits(r)
    ensures n > 0 ==> r[0] != '0'
  {
    if n < 10 then [DigitChar(n)] else NatToDecimal(n / 10) + [DigitChar(n % 10)]
  }

  /** The value of a string of decimal digits. */
  function DecimalValue(s: string): nat
    requires AllDigits(s)
  {
    if |s| == 0 then 0 else DecimalValue(s[..|s| - 1]) * 10 + (s[|s| - 1] as int - '0' as int)
  }

  /** Rendering a number in decimal loses nothing: reading the digits back gives the number. */
  lemma {:induction false} DecimalRoundTrip(n: nat)
    ensures DecimalValue(NatToDecimal(n)) == n
  {
    if n >= 10 {
      DecimalRoundTrip(n / 10);
      var r := NatToDecimal(n);
      assert r[..|r| - 1] == NatToDecimal(n / 10);
    }
  }

  // ------------------------------------------------------------- file names

  /** `s.split(sep).pop()`: the text after the last `sep`, or all of `s` when it has none. */
  function LastSegment(s: string, sep: char): (r: string)
    ensures |r| <= |s| && r == s[|s| - |r|..]
    ensures sep !in r
    ensures |r| < |s| ==> s[|s| - |r| - 1] == sep
  {
    if |s| == 0 then ""
    else if s[|s| - 1] == sep then ""
    else LastSegment(s[..|s| - 1], sep) + [s[|s| - 1]]
  }

  /** Without a separator, the last segment is the whole string. */
  lemma {:induction false} LastSegmentWithoutSeparator(s: string, sep: char)
    requires sep !in s
    ensures LastSegment(s, sep) == s
  {
    if |s| > 0 {
      LastSegmentWithoutSeparator(s[..|s| - 1], sep);
      assert s[..|s| - 1] + [s[|s| - 1]] == s;
    }
  }

  /** `/\.[^.]+$/` matches at `k`: a dot at `k` followed by one or more characters, none a dot, to the end. */
  predicate ExtensionAt(s: string, k: int)
  {
    0 <= k < |s| - 1 && s[k] == '.' && forall i :: k < i < |s| ==> s[i] != '.'
  }

  /** `s.replace(/\.[^.]+$/, '')`: cut at the match when there is one, else `s` unchanged. */
  function StripExtension(s: string): (r: string)
    ensures forall k :: ExtensionAt(s, k) ==> r == s[..k]
    ensures (forall k :: !ExtensionAt(s, k)) ==> r == s
  {
    var ext := LastSegment(s, '.');
    var p := |s| - |ext| - 1;
    if 0 < |ext| < |s| then
      assert ExtensionAt(s, p) by {
        forall i | p < i < |s| ensures s[i] != '.' {
          assert s[i] == ext[i - (p + 1)];
        }
      }
      assert forall k :: ExtensionAt(s, k) ==> k == p by {
        forall k | ExtensionAt(s, k) ensures k == p {
        }
      }
      s[..p]
    else
      assert forall k :: !ExtensionAt(s, k) by {
        forall k | 0 <= k < |s| - 1 && s[k] == '.' ensures !ExtensionAt(s, k) {
          if |ext| != |s| {
            assert s[|s| - 1] == '.';
          }
        }
      }
      s
  }
}
