/** Text operations the core relies on: ordinal case-insensitive substring
    search (restricted to ASCII letters) and decimal formatting of integers,
    as used by string interpolation. */
module Text {

  /** ASCII lower-casing of one character; every other character is unchanged. */
  function LowerChar(c: char): char {
    if 'A' <= c <= 'Z' then (c as int + 32) as char else c
  }

  function Lower(s: string): (r: string)
    ensures |r| == |s|
    ensures forall i :: 0 <= i < |s| ==> r[i] == LowerChar(s[i])
  {
    seq(|s|, i requires 0 <= i < |s| => LowerChar(s[i]))
  }

  /** `k` occurs in `s` starting at position `i`. */
  ghost predicate OccursAt(k: string, s: string, i: int) {
    0 <= i && i + |k| <= |s| && s[i..i + |k|] == k
  }

  /** `k` occurs in `s` at some position: the meaning of a substring test. */
  ghost predicate Occurs(k: string, s: string) {
    exists i :: OccursAt(k, s, i)
  }

  /** The substring test, scanning `s` from the left. */
  predicate Contains(s: string, k: string)
    decreases |s|
  {
    if |s| < |k| then false
    else s[..|k|] == k || (|s| > 0 && Contains(s[1..], k))
  }

  /** The scan finds `k` exactly when `k` occurs in `s`. */
  lemma {:induction false} ContainsIffOccurs(s: string, k: string)
    ensures Contains(s, k) <==> Occurs(k, s)
    decreases |s|
  {
    if |s| < |k| {
    } else if s[..|k|] == k {
      assert OccursAt(k, s, 0);
    } else if |s| > 0 {
      ContainsIffOccurs(s[1..], k);
      if Occurs(k, s[1..]) {
        var i :| OccursAt(k, s[1..], i);
        assert s[i + 1..i + 1 + |k|] == s[1..][i..i + |k|];
        assert OccursAt(k, s, i + 1);
      }
      if Occurs(k, s) {
        var i :| OccursAt(k, s, i);
        assert i != 0;
        assert s[1..][i - 1..i - 1 + |k|] == s[i..i + |k|];
        assert OccursAt(k, s[1..], i - 1);
      }
    }
  }

  /** Every character of a string found in `s` is a character of `s`. */
  lemma ContainsOnlyItsChars(s: string, k: string, j: int)
    requires 0 <= j < |k| && k[j] !in s
    ensures !Contains(s, k)
  {
    ContainsIffOccurs(s, k);
    forall i | 0 <= i && i + |k| <= |s|
      ensures !OccursAt(k, s, i)
    {
      assert s[i..i + |k|][j] == s[i + j] && s[i + j] in s;
    }
  }

  /** Ordinal case-insensitive `Contains`, with case folded over ASCII letters. */
  predicate ContainsIgnoreCase(s: string, k: string) {
    Contains(Lower(s), Lower(k))
  }

  function DigitChar(d: nat): (c: char)
    requires d < 10
    ensures '0' <= c <= '9'
  {
    (48 + d) as char
  }

  /** The decimal representation of a natural number, without leading zeros. */
  function NatToString(n: nat): (r: string)
    ensures 0 < |r|
    ensures forall i :: 0 <= i < |r| ==> '0' <= r[i] <= '9'
    ensures n > 0 ==> r[0] != '0'
    decreases n
  {
    if n < 10 then [DigitChar(n)] else NatToString(n / 10) + [DigitChar(n % 10)]
  }

  /** The value of a string of decimal digits. */
  function ParseDigits(s: string): nat
    requires forall i :: 0 <= i < |s| ==> '0' <= s[i] <= '9'
  {
    if s == [] then 0
    else ParseDigits(s[..|s| - 1]) * 10 + (s[|s| - 1] as int - 48)
  }

  /** Reading the decimal representation back gives the number. */
  lemma {:induction false} ParseNatToString(n: nat)
    ensures ParseDigits(NatToString(n)) == n
    decreases n
  {
    if n >= 10 {
      var s := NatToString(n);
      assert s[..|s| - 1] == NatToString(n / 10);
      ParseNatToString(n / 10);
    }
  }

  /** The decimal representation of an integer, with a leading '-' when negative. */
  function IntToString(i: int): (r: string)
    ensures 0 < |r|
  {
    if i < 0 then "-" + NatToString(-i) else NatToString(i)
  }

  /** Distinct integers have distinct representations. */
  lemma IntToStringInjective(a: int, b: int)
    ensures IntToString(a) == IntToString(b) ==> a == b
  {
    if IntToString(a) == IntToString(b) {
      var s := IntToString(a);
      if a < 0 {
        assert b < 0;
        assert s[1..] == NatToString(-a) == NatToString(-b);
        ParseNatToString(-a);
        ParseNatToString(-b);
      } else {
        assert b >= 0;
        ParseNatToString(a);
        ParseNatToString(b);
      }
    }
  }
}
