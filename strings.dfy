/** String operations the extension relies on: substring search (`String.prototype.includes`),
    whitespace trimming (`trim()` and the regular-expression class `\s`, which JavaScript
    defines over the same character set), the global marker removal of `extractPostInfo`,
    and the decimal rendering of a natural number (template-literal interpolation). */
module Strings {

  /** True iff `sub` occurs in `s` at some position (`s.includes(sub)`). */
  predicate Contains(s: string, sub: string) {
    exists k | 0 <= k <= |s| :: OccursAt(s, sub, k)
  }

  /** `sub` stands in `s` starting at index `k`. */
  predicate OccursAt(s: string, sub: string, k: int) {
    0 <= k && k + |sub| <= |s| && s[k..k + |sub|] == sub
  }

  predicate StartsWith(s: string, prefix: string) {
    |prefix| <= |s| && s[..|prefix|] == prefix
  }

  /** The ECMAScript WhiteSpace and LineTerminator characters: the set `trim()` removes and
      the set the regular-expression class `\s` matches. */
  predicate IsSpace(c: char) {
    c == ' ' || c == '\t' || c == '\n' || c == '\r' || c == '\U{000B}' || c == '\U{000C}'
    || c == '\U{00A0}' || c == '\U{1680}' || ('\U{2000}' <= c <= '\U{200A}')
    || c == '\U{2028}' || c == '\U{2029}' || c == '\U{202F}' || c == '\U{205F}'
    || c == '\U{3000}' || c == '\U{FEFF}'
  }

  function TrimStart(s: string): (r: string)
    ensures |r| <= |s| && r == s[|s| - |r|..]
    ensures r == [] || !IsSpace(r[0])
    ensures forall k :: 0 <= k < |s| - |r| ==> IsSpace(s[k])
  {
    if s != [] && IsSpace(s[0]) then TrimStart(s[1..]) else s
  }

  function TrimEnd(s: string): (r: string)
    ensures |r| <= |s| && r == s[..|r|]
    ensures r == [] || !IsSpace(r[|r| - 1])
    ensures forall k :: |r| <= k < |s| ==> IsSpace(s[k])
  {
    if s != [] && IsSpace(s[|s| - 1]) then TrimEnd(s[..|s| - 1]) else s
  }

  /** `s.trim()`: `s` without its leading and trailing whitespace. The result neither begins
      nor ends with whitespace, and what was cut off on either side is all whitespace. */
  function Trim(s: string): (r: string)
    ensures r == [] || (!IsSpace(r[0]) && !IsSpace(r[|r| - 1]))
    ensures exists lo :: OccursAt(s, r, lo)
    ensures var lo := |s| - |TrimStart(s)|;
      OccursAt(s, r, lo) && (forall k :: 0 <= k < lo ==> IsSpace(s[k]))
      && (forall k :: lo + |r| <= k < |s| ==> IsSpace(s[k]))
  {
    TrimEndInPlace(s, TrimStart(s));
    TrimEnd(TrimStart(s))
  }

  /** Trimming the end of a suffix `t` of `s` cuts only whitespace off `s`. */
  lemma {:induction false} TrimEndInPlace(s: string, t: string)
    requires |t| <= |s| && t == s[|s| - |t|..]
    ensures var lo, r := |s| - |t|, TrimEnd(t);
      OccursAt(s, r, lo) && forall k :: lo + |r| <= k < |s| ==> IsSpace(s[k])
  {
    var lo, r := |s| - |t|, TrimEnd(t);
    forall k | lo + |r| <= k < |s| ensures IsSpace(s[k]) {
      assert s[k] == t[k - lo];
    }
    assert s[lo..lo + |r|] == t[..|r|];
  }

  /** A string that neither begins nor ends with whitespace is its own trim. */
  lemma {:induction false} TrimFixesTrimmed(s: string)
    requires s == [] || (!IsSpace(s[0]) && !IsSpace(s[|s| - 1]))
    ensures Trim(s) == s
  {
    assert TrimStart(s) == s;
    assert TrimEnd(s) == s;
  }

  /** Drops the whitespace run at the front of `s` (the greedy `\s*`). */
  function SkipSpaces(s: string): (r: string)
    ensures |r| <= |s| && r == s[|s| - |r|..]
  {
    if s != [] && IsSpace(s[0]) then SkipSpaces(s[1..]) else s
  }

  const Marker := "Promoted"

  /** The global regular-expression replacement of the marker followed by `\s` (any number)
      with the empty string: one left-to-right pass that removes every
      non-overlapping occurrence of the marker together with the whitespace after it. */
  function RemoveMarker(s: string): (r: string)
    ensures |r| <= |s|
    decreases |s|
  {
    if s == [] then []
    else if StartsWith(s, Marker) then RemoveMarker(SkipSpaces(s[|Marker|..]))
    else [s[0]] + RemoveMarker(s[1..])
  }

  /** A string without the marker is left exactly as it was. */
  lemma {:induction false} RemoveMarkerIdentity(s: string)
    requires !Contains(s, Marker)
    ensures RemoveMarker(s) == s
    decreases |s|
  {
    if s != [] {
      assert !StartsWith(s, Marker) by {
        if StartsWith(s, Marker) { assert OccursAt(s, Marker, 0); }
      }
      assert !Contains(s[1..], Marker) by {
        if Contains(s[1..], Marker) {
          var k :| 0 <= k <= |s[1..]| && OccursAt(s[1..], Marker, k);
          assert s[1..][k..k + |Marker|] == s[k + 1..k + 1 + |Marker|];
          assert OccursAt(s, Marker, k + 1);
        }
      }
      RemoveMarkerIdentity(s[1..]);
    }
  }

  /** A string that holds the marker always loses characters. */
  lemma {:induction false} RemoveMarkerShrinks(s: string)
    requires Contains(s, Marker)
    ensures |RemoveMarker(s)| < |s|
    decreases |s|
  {
    var k :| 0 <= k <= |s| && OccursAt(s, Marker, k);
    if StartsWith(s, Marker) {
    } else {
      assert k > 0;
      assert s[1..][k - 1..k - 1 + |Marker|] == s[k..k + |Marker|];
      assert OccursAt(s[1..], Marker, k - 1);
      RemoveMarkerShrinks(s[1..]);
    }
  }

  /** Removal is exactly the identity on the strings without the marker. */
  lemma {:induction false} RemoveMarkerFixesExactlyMarkerFree(s: string)
    ensures RemoveMarker(s) == s <==> !Contains(s, Marker)
  {
    if Contains(s, Marker) { RemoveMarkerShrinks(s); } else { RemoveMarkerIdentity(s); }
  }

  lemma {:induction false} RemoveMarkerStep(s: string)
    requires s != [] && !StartsWith(s, Marker)
    ensures RemoveMarker(s) == [s[0]] + RemoveMarker(s[1..])
  {}

  lemma {:induction false} RemoveMarkerShort(s: string)
    requires |s| < |Marker|
    ensures RemoveMarker(s) == s
  {
    assert !Contains(s, Marker);
    RemoveMarkerIdentity(s);
  }

  lemma {:induction false} RemoveMarkerThenShort(t: string)
    requires StartsWith(t, Marker) && |Marker| < |t| < 2 * |Marker| && !IsSpace(t[|Marker|])
    ensures RemoveMarker(t) == t[|Marker|..]
  {
    var rest := t[|Marker|..];
    assert SkipSpaces(rest) == rest;
    RemoveMarkerShort(rest);
  }

  /** Where no marker starts in the first `n` characters, those characters are kept as they
      are and removal goes on from position `n`. */
  lemma {:induction false} RemoveMarkerKeepsPrefix(s: string, n: nat)
    requires n <= |s| && forall k :: 0 <= k < n ==> !StartsWith(s[k..], Marker)
    ensures RemoveMarker(s) == s[..n] + RemoveMarker(s[n..])
    decreases n
  {
    if n == 0 {
      assert s[..0] == [] && s[0..] == s;
    } else {
      var t := s[1..];
      NoMarkerShifts(s, n);
      RemoveMarkerStep(s);
      RemoveMarkerKeepsPrefix(t, n - 1);
      assert t[n - 1..] == s[n..];
      ConsPrefix(s, n, RemoveMarker(s), RemoveMarker(t), RemoveMarker(s[n..]));
    }
  }

  /** A marker-free prefix of length `n` starts with a non-marker, and its tail is one of
      length `n - 1` of `s[1..]`. */
  lemma {:induction false} NoMarkerShifts(s: string, n: nat)
    requires 0 < n <= |s| && forall k :: 0 <= k < n ==> !StartsWith(s[k..], Marker)
    ensures s != [] && !StartsWith(s, Marker)
    ensures forall k :: 0 <= k < n - 1 ==> !StartsWith(s[1..][k..], Marker)
  {
    assert s[0..] == s;
    forall k | 0 <= k < n - 1 ensures !StartsWith(s[1..][k..], Marker) {
      assert s[1..][k..] == s[k + 1..];
    }
  }

  /** Putting `s[0]` back in front of a result that keeps `s[1..n]` keeps `s[..n]`. */
  lemma {:induction false} ConsPrefix(s: string, n: nat, whole: string, tail: string, rest: string)
    requires 0 < n <= |s|
    requires whole == [s[0]] + tail && tail == s[1..][..n - 1] + rest
    ensures whole == s[..n] + rest
  {
    assert s[..n] == [s[0]] + s[1..][..n - 1];
  }

  function DigitChar(d: nat): (c: char)
    requires d < 10
  {
    ('0' as int + d) as char
  }

  function DigitValue(c: char): (d: int)
  {
    if '0' <= c <= '9' then c as int - '0' as int else -1
  }

  /** Decimal rendering of a natural number, without leading zeros (`${n}`). */
  function NatToString(n: nat): (s: string)
    ensures |s| > 0
    decreases n
  {
    if n < 10 then [DigitChar(n)] else NatToString(n / 10) + [DigitChar(n % 10)]
  }

  /** The value of a string of decimal digits. */
  function DecimalValue(s: string): (v: int)
  {
    if s == [] then 0 else DecimalValue(s[..|s| - 1]) * 10 + DigitValue(s[|s| - 1])
  }

  predicate AllDigits(s: string) {
    forall k :: 0 <= k < |s| ==> '0' <= s[k] <= '9'
  }

  /** The rendering consists of digits, does not start with a zero unless it is "0",
      and reads back as the number it renders. */
  lemma {:induction false} NatToStringRoundTrip(n: nat)
    ensures AllDigits(NatToString(n))
    ensures NatToString(n)[0] != '0' || n == 0
    ensures DecimalValue(NatToString(n)) == n
    decreases n
  {
    var s := NatToString(n);
    if n < 10 {
      assert s[..0] == [];
      assert DecimalValue(s) == DecimalValue([]) * 10 + DigitValue(s[0]);
    } else {
      NatToStringRoundTrip(n / 10);
      var p, c := NatToString(n / 10), DigitChar(n % 10);
      assert s == p + [c];
      assert s[..|s| - 1] == p && s[|s| - 1] == c;
      assert DecimalValue(s) == (n / 10) * 10 + n % 10;
      assert s[0] == p[0];
    }
  }
}
