/** The handful of JavaScript string operations the components rely on:
    the whitespace class shared by `trim()` and the regex class `\s`,
    `trim`, `includes`, `join`, and the decimal rendering of an integer
    inside a template literal. */
module Text {

  /** ECMAScript WhiteSpace and LineTerminator code points: what `trim()`
      strips and what `\s` matches. */
  predicate IsSpace(c: char)
  {
    || c == '\t' || c == '\n' || c == '\U{000B}' || c == '\U{000C}' || c == '\r' || c == ' '
    || c == '\U{00A0}' || c == '\U{1680}' || ('\U{2000}' <= c <= '\U{200A}')
    || c == '\U{2028}' || c == '\U{2029}' || c == '\U{202F}' || c == '\U{205F}' || c == '\U{3000}' || c == '\U{FEFF}'
  }

  predicate AllSpace(s: string)
  {
    forall k :: 0 <= k < |s| ==> IsSpace(s[k])
  }

  predicate NoSpace(s: string)
  {
    forall k :: 0 <= k < |s| ==> !IsSpace(s[k])
  }

  /** Index of the first non-space character (|s| when there is none). */
  function LeadingSpaces(s: string): (i: nat)
    ensures i <= |s|
    ensures AllSpace(s[..i])
    ensures i < |s| ==> !IsSpace(s[i])
    ensures i == |s| <==> AllSpace(s)
  {
    if s == [] then 0
    else if !IsSpace(s[0]) then 0
    else
      var k := LeadingSpaces(s[1..]);
      assert s[..k + 1] == [s[0]] + s[1..][..k];
      assert AllSpace(s) ==> AllSpace(s[1..]) by {
        if AllSpace(s) {
          forall m | 0 <= m < |s[1..]| ensures IsSpace(s[1..][m]) { assert s[1..][m] == s[m + 1]; }
        }
      }
      assert s == [s[0]] + s[1..];
      k + 1
  }

  /** Index just after the last non-space character (0 when there is none). */
  function TrailingEnd(s: string): (j: nat)
    ensures j <= |s|
    ensures AllSpace(s[j..])
    ensures 0 < j ==> !IsSpace(s[j - 1])
    ensures j == 0 <==> AllSpace(s)
  {
    if s == [] then 0
    else if !IsSpace(s[|s| - 1]) then |s|
    else
      var init := s[..|s| - 1];
      var k := TrailingEnd(init);
      assert s[k..] == init[k..] + [s[|s| - 1]];
      assert s == init + [s[|s| - 1]];
      assert AllSpace(s) ==> AllSpace(init) by {
        if AllSpace(s) {
          forall m | 0 <= m < |init| ensures IsSpace(init[m]) { assert init[m] == s[m]; }
        }
      }
      k
  }

  /** `String.prototype.trim`: the text between the leading and trailing
      whitespace; empty exactly when the text is all whitespace. */
  function Trim(s: string): (r: string)
    ensures |r| <= |s|
    ensures r == [] || (!IsSpace(r[0]) && !IsSpace(r[|r| - 1]))
    ensures r == [] <==> AllSpace(s)
    ensures exists i, j :: 0 <= i <= j <= |s| && r == s[i..j] && AllSpace(s[..i]) && AllSpace(s[j..])
  {
    var i := LeadingSpaces(s);
    var rest := s[i..];
    var k := TrailingEnd(rest);
    assert rest != [] ==> !IsSpace(rest[0]);
    assert s[i + k..] == rest[k..];
    assert s[i..i + k] == rest[..k];
    s[i..i + k]
  }

  /** A string with no whitespace at either end is its own trim. */
  lemma TrimFixed(s: string)
    requires s == [] || (!IsSpace(s[0]) && !IsSpace(s[|s| - 1]))
    ensures Trim(s) == s
  {
    if s != [] {
      assert LeadingSpaces(s) == 0;
      assert s[0..] == s;
    }
  }

  /** Trimming twice is trimming once. */
  lemma TrimIdempotent(s: string)
    ensures Trim(Trim(s)) == Trim(s)
  {
    TrimFixed(Trim(s));
  }

  /** Whether `sub` occurs in `s` starting at position `i`. */
  predicate OccursAt(s: string, sub: string, i: int)
  {
    0 <= i && i + |sub| <= |s| && s[i..i + |sub|] == sub
  }

  /** `String.prototype.includes`. */
  function Contains(s: string, sub: string): (b: bool)
    ensures b <==> exists i :: OccursAt(s, sub, i)
    decreases |s|
  {
    if |sub| > |s| then false
    else if s[..|sub|] == sub then
      assert OccursAt(s, sub, 0);
      true
    else if s == [] then false
    else
      var rest := Contains(s[1..], sub);
      assert rest ==> exists i :: OccursAt(s, sub, i) by {
        if rest {
          var i :| OccursAt(s[1..], sub, i);
          assert s[i + 1..i + 1 + |sub|] == s[1..][i..i + |sub|];
          assert OccursAt(s, sub, i + 1);
        }
      }
      assert (exists i :: OccursAt(s, sub, i)) ==> rest by {
        if exists i :: OccursAt(s, sub, i) {
          var i :| OccursAt(s, sub, i);
          assert i != 0;
          assert s[1..][i - 1..i - 1 + |sub|] == s[i..i + |sub|];
          assert OccursAt(s[1..], sub, i - 1);
        }
      }
      rest
  }

  /** `Array.prototype.join`. */
  function Join(parts: seq<string>, sep: string): string
  {
    if parts == [] then ""
    else if |parts| == 1 then parts[0]
    else parts[0] + sep + Join(parts[1..], sep)
  }

  /** The parts written one after another. */
  function Concat(parts: seq<string>): string
  {
    if parts == [] then "" else Concat(parts[..|parts| - 1]) + parts[|parts| - 1]
  }

  lemma {:induction false} ConcatCons(p: string, ps: seq<string>)
    ensures Concat([p] + ps) == p + Concat(ps)
  {
    if ps == [] {
      assert [p][..0] == [];
    } else {
      var init, last := ps[..|ps| - 1], ps[|ps| - 1];
      ConcatCons(p, init);
      assert ([p] + ps)[..|ps|] == [p] + init;
      assert Concat([p] + ps) == p + Concat(init) + last;
    }
  }

  lemma ConcatSnoc(ps: seq<string>, p: string)
    ensures Concat(ps + [p]) == Concat(ps) + p
  {
    assert (ps + [p])[..|ps|] == ps;
  }

  lemma {:induction false} ConcatAppend(a: seq<string>, b: seq<string>)
    ensures Concat(a + b) == Concat(a) + Concat(b)
    decreases |b|
  {
    if b == [] {
      assert a + b == a;
    } else {
      var init, last := b[..|b| - 1], b[|b| - 1];
      ConcatAppend(a, init);
      assert b == init + [last];
      assert a + b == (a + init) + [last];
      ConcatSnoc(a + init, last);
      ConcatSnoc(init, last);
    }
  }

  /** `s.repeat(n)`-style concatenation of `n` copies. */
  function Repeat(s: string, n: nat): (r: string)
    ensures |r| == n * |s|
  {
    if n == 0 then "" else s + Repeat(s, n - 1)
  }

  // ---- decimal integers ----

  function DigitChar(d: nat): char
    requires d < 10
  {
    "0123456789"[d]
  }

  predicate IsDigit(c: char)
  {
    '0' <= c <= '9'
  }

  /** The decimal digits of `n`, most significant first, no leading zero. */
  function NatToString(n: nat): (s: string)
    ensures |s| >= 1
    ensures forall k :: 0 <= k < |s| ==> IsDigit(s[k])
    ensures |s| > 1 ==> s[0] != '0'
  {
    if n < 10 then [DigitChar(n)] else NatToString(n / 10) + [DigitChar(n % 10)]
  }

  /** How a number appears in a template literal: a minus sign for
      negatives, then its digits. */
  function IntToString(i: int): (s: string)
    ensures |s| >= 1
    ensures forall k :: 0 <= k < |s| ==> IsDigit(s[k]) || s[k] == '-'
  {
    if i < 0 then "-" + NatToString(-i) else NatToString(i)
  }

  function DigitValue(c: char): nat
    requires IsDigit(c)
  {
    (c as int) - ('0' as int)
  }

  /** The value of a string of decimal digits. */
  function ParseNat(s: string): nat
    requires forall k :: 0 <= k < |s| ==> IsDigit(s[k])
  {
    if s == [] then 0 else 10 * ParseNat(s[..|s| - 1]) + DigitValue(s[|s| - 1])
  }

  function ParseInt(s: string): int
    requires forall k :: 0 <= k < |s| ==> IsDigit(s[k]) || s[k] == '-'
    requires forall k :: 1 <= k < |s| ==> IsDigit(s[k])
  {
    if s != [] && s[0] == '-' then -(ParseNat(s[1..]) as int) else ParseNat(s)
  }

  /** The rendering is read back exactly: it loses no information. */
  lemma {:induction false} NatToStringRoundTrip(n: nat)
    ensures ParseNat(NatToString(n)) == n
  {
    if n >= 10 {
      NatToStringRoundTrip(n / 10);
      var s := NatToString(n);
      assert s[..|s| - 1] == NatToString(n / 10);
    }
  }

  lemma IntToStringRoundTrip(i: int)
    ensures forall k :: 1 <= k < |IntToString(i)| ==> IsDigit(IntToString(i)[k])
    ensures ParseInt(IntToString(i)) == i
  {
    if i < 0 {
      NatToStringRoundTrip(-i);
      assert IntToString(i)[1..] == NatToString(-i);
    } else {
      NatToStringRoundTrip(i);
    }
  }

  /** Distinct numbers render differently. */
  lemma IntToStringInjective(a: int, b: int)
    requires IntToString(a) == IntToString(b)
    ensures a == b
  {
    IntToStringRoundTrip(a);
    IntToStringRoundTrip(b);
  }
}
