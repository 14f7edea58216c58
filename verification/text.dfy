/**
 Character and string helpers the source gets from the JavaScript runtime:
 `String.prototype.toLowerCase`, `String.prototype.includes`, `Number.prototype.toString(16)`
 and decimal template-literal interpolation of a counter.
 */
module Text {

  /** ASCII case folding of one character. */
  function LowerChar(c: char): char {
    if 'A' <= c <= 'Z' then (c as int + 32) as char else c
  }

  /** `s.toLowerCase()` restricted to ASCII letters. */
  function Lower(s: string): (r: string)
    ensures |r| == |s|
    ensures forall i :: 0 <= i < |s| ==> r[i] == LowerChar(s[i])
    decreases |s|
  {
    if |s| == 0 then [] else [LowerChar(s[0])] + Lower(s[1..])
  }

  /** `p` occurs in `s` starting at index `i`. */
  predicate OccursAt(s: string, p: string, i: int) {
    0 <= i && i + |p| <= |s| && s[i..i + |p|] == p
  }

  /** `s.includes(p)`: some window of `s` equals `p`. */
  predicate Contains(s: string, p: string) {
    exists i :: 0 <= i <= |s| && OccursAt(s, p, i)
  }

  /** Compares `p` with the window of `s` at `i`, one character at a time. */
  method MatchesAt(s: string, p: string, i: nat) returns (b: bool)
    requires i + |p| <= |s|
    ensures b <==> OccursAt(s, p, i)
  {
    var j := 0;
    while j < |p|
      invariant 0 <= j <= |p|
      invariant forall k :: 0 <= k < j ==> s[i + k] == p[k]
    {
      if s[i + j] != p[j] {
        assert s[i..i + |p|][j] != p[j];
        return false;
      }
      j := j + 1;
    }
    assert s[i..i + |p|] == p;
    return true;
  }

  /** The naive substring search behind `includes`: tries every start position in turn. */
  method Includes(s: string, p: string) returns (b: bool)
    ensures b <==> Contains(s, p)
  {
    if |p| > |s| {
      return false;
    }
    var i := 0;
    while i <= |s| - |p|
      invariant 0 <= i <= |s| - |p| + 1
      invariant forall k :: 0 <= k < i ==> !OccursAt(s, p, k)
    {
      var hit := MatchesAt(s, p, i);
      if hit {
        return true;
      }
      i := i + 1;
    }
    return false;
  }

  /** The sixteen digits `toString(16)` produces, in order of value. */
  const HexDigits: string := "0123456789abcdef"

  predicate IsLowerHex(c: char) {
    '0' <= c <= '9' || 'a' <= c <= 'f'
  }

  /** `v.toString(16)` for a single hexadecimal digit. */
  function HexDigit(v: int): (c: char)
    requires 0 <= v < 16
    ensures IsLowerHex(c)
    ensures HexValue(c) == v
  {
    HexDigits[v]
  }

  /** The value of a lower-case hexadecimal digit. */
  function HexValue(c: char): (v: int)
    requires IsLowerHex(c)
    ensures 0 <= v < 16
  {
    if '0' <= c <= '9' then c as int - '0' as int else c as int - 'a' as int + 10
  }

  lemma HexValueRoundTrip(c: char)
    requires IsLowerHex(c)
    ensures HexDigit(HexValue(c)) == c
  {
  }

  predicate IsDecimal(s: string) {
    forall i :: 0 <= i < |s| ==> '0' <= s[i] <= '9'
  }

  /** The decimal text JavaScript interpolates for a non-negative integer (`${n}`). */
  function NatToDecimal(n: nat): (s: string)
    ensures |s| >= 1
    ensures IsDecimal(s)
    decreases n
  {
    if n < 10 then ["0123456789"[n]]
    else NatToDecimal(n / 10) + ["0123456789"[n % 10]]
  }

  /** Reads a string of decimal digits back as a number. */
  function DecimalToNat(s: string): nat
    requires IsDecimal(s)
    decreases |s|
  {
    if |s| == 0 then 0
    else DecimalToNat(s[..|s| - 1]) * 10 + (s[|s| - 1] as int - '0' as int)
  }

  /** Decimal rendering loses nothing: it can be read back exactly. */
  lemma {:induction false} DecimalRoundTrip(n: nat)
    ensures DecimalToNat(NatToDecimal(n)) == n
    decreases n
  {
    if n >= 10 {
      var s := NatToDecimal(n);
      assert s[..|s| - 1] == NatToDecimal(n / 10);
      DecimalRoundTrip(n / 10);
    }
  }

  /** Hence different numbers render as different text. */
  lemma DecimalInjective(m: nat, n: nat)
    requires NatToDecimal(m) == NatToDecimal(n)
    ensures m == n
  {
    DecimalRoundTrip(m);
    DecimalRoundTrip(n);
  }
}
