/** The string operations the contact page relies on: lower-casing, substring
    search and the decimal rendering of an id inside a template string.
    Lower-casing is the ASCII mapping only. */
module Strings {

  function LowerChar(c: char): char {
    if 'A' <= c <= 'Z' then (c as int + 32) as char else c
  }

  function Lower(s: string): (r: string)
    ensures |r| == |s|
    ensures forall k :: 0 <= k < |s| ==> r[k] == LowerChar(s[k])
  {
    if s == [] then [] else [LowerChar(s[0])] + Lower(s[1..])
  }

  /** Does `t` occur in `s` as a contiguous block? */
  predicate Includes(s: string, t: string)
    decreases |s|
  {
    t <= s || (|s| > 0 && Includes(s[1..], t))
  }

  /** `t` occurs in `s` starting at position `k`. */
  predicate OccursAt(s: string, t: string, k: nat) {
    k + |t| <= |s| && s[k..k + |t|] == t
  }

  /** An occurrence found by the search: the position where it starts. */
  lemma {:induction false} IncludesWitness(s: string, t: string) returns (k: nat)
    requires Includes(s, t)
    ensures OccursAt(s, t, k)
    decreases |s|
  {
    if t <= s {
      k := 0;
    } else {
      var j := IncludesWitness(s[1..], t);
      assert s[1..][j..j + |t|] == s[j + 1..j + 1 + |t|];
      k := j + 1;
    }
  }

  /** An occurrence at any position is found by the search. */
  lemma {:induction false} OccurrenceIncluded(s: string, t: string, k: nat)
    requires OccursAt(s, t, k)
    ensures Includes(s, t)
    decreases k
  {
    if k == 0 {
      assert s[..|t|] == t;
    } else {
      assert s[1..][k - 1..k - 1 + |t|] == s[k..k + |t|];
      OccurrenceIncluded(s[1..], t, k - 1);
    }
  }

  lemma IncludesAt(s: string, t: string)
    ensures Includes(s, t) <==> exists k: nat :: OccursAt(s, t, k)
  {
    if Includes(s, t) {
      var k := IncludesWitness(s, t);
    }
    forall k: nat | OccursAt(s, t, k) ensures Includes(s, t) {
      OccurrenceIncluded(s, t, k);
    }
  }

  lemma IncludesEmpty(s: string)
    ensures Includes(s, "")
  {
  }

  function Digit(d: nat): (c: char)
    requires d < 10
    ensures '0' <= c <= '9'
  {
    (48 + d) as char
  }

  /** Decimal digits of a natural number, most significant first, no
      leading zeros. */
  function NatToString(n: nat): (r: string)
    ensures |r| > 0 && forall k :: 0 <= k < |r| ==> '0' <= r[k] <= '9'
    ensures n > 0 ==> r[0] != '0'
  {
    if n < 10 then [Digit(n)] else NatToString(n / 10) + [Digit(n % 10)]
  }

  /** The decimal rendering of an integer id, with a minus sign when negative. */
  function IntToString(n: int): string {
    if n < 0 then "-" + NatToString(-n) else NatToString(n)
  }

  /** Reads a string of decimal digits back as a number. */
  function ParseDigits(s: string): nat
    requires forall k :: 0 <= k < |s| ==> '0' <= s[k] <= '9'
  {
    if s == [] then 0 else ParseDigits(s[..|s| - 1]) * 10 + (s[|s| - 1] as int - 48)
  }

  lemma {:induction false} NatToStringRoundTrip(n: nat)
    ensures ParseDigits(NatToString(n)) == n
  {
    if n >= 10 {
      NatToStringRoundTrip(n / 10);
      var r := NatToString(n);
      assert r[..|r| - 1] == NatToString(n / 10);
    }
  }

  lemma NatToStringInjective(m: nat, n: nat)
    requires NatToString(m) == NatToString(n)
    ensures m == n
  {
    NatToStringRoundTrip(m);
    NatToStringRoundTrip(n);
  }

  /** The first character tells the sign. */
  lemma IntToStringSign(n: int)
    ensures (IntToString(n)[0] == '-') <==> n < 0
    ensures n < 0 ==> IntToString(n)[1..] == NatToString(-n)
  {
    if n < 0 {
      assert IntToString(n)[1..] == NatToString(-n);
    } else {
      assert '0' <= NatToString(n)[0] <= '9';
    }
  }

  /** Distinct ids render as distinct strings. */
  lemma IntToStringInjective(m: int, n: int)
    requires IntToString(m) == IntToString(n)
    ensures m == n
  {
    IntToStringSign(m);
    IntToStringSign(n);
    if m < 0 {
      NatToStringInjective(-m, -n);
    } else {
      NatToStringInjective(m, n);
    }
  }
}
