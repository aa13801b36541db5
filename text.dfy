/**
 * String helpers shared by the browser client and the backend: ASCII
 * lower-casing (`toLowerCase()` in JavaScript, `lower()` in Python), the
 * text after the last occurrence of a separator (`rsplit(sep, 1)[1]` and
 * `split(sep)[-1]` in Python), and the decimal rendering of an integer
 * (a JavaScript template literal `${n}`).
 */
module Text {

  /** Lower-cases one character; only 'A'..'Z' change. */
  function LowerChar(c: char): (r: char)
    ensures 'A' <= c <= 'Z' ==> 'a' <= r <= 'z' && r as int == c as int + 32
    ensures !('A' <= c <= 'Z') ==> r == c
  {
    if 'A' <= c <= 'Z' then (c as int + 32) as char else c
  }

  /** Lower-cases a string character by character. */
  function Lower(s: string): (r: string)
    ensures |r| == |s|
    ensures forall i :: 0 <= i < |s| ==> r[i] == LowerChar(s[i])
  {
    if s == [] then [] else [LowerChar(s[0])] + Lower(s[1..])
  }

  /** No upper-case ASCII letter occurs in `s`. */
  predicate IsLower(s: string) {
    forall i :: 0 <= i < |s| ==> !('A' <= s[i] <= 'Z')
  }

  /** `s` and `t` are equal once case is ignored, compared position by position. */
  predicate EqualIgnoringCase(s: string, t: string) {
    |s| == |t| && forall i :: 0 <= i < |s| ==> LowerChar(s[i]) == LowerChar(t[i])
  }

  /** Lower-casing `s` gives the lower-case word `t` exactly when `s` is `t` up to case. */
  lemma LowerIsIgnoringCase(s: string, t: string)
    requires IsLower(t)
    ensures Lower(s) == t <==> EqualIgnoringCase(s, t)
  {
    if EqualIgnoringCase(s, t) {
      forall i | 0 <= i < |s| ensures Lower(s)[i] == t[i] {
        assert LowerChar(t[i]) == t[i];
      }
    }
  }

  /** Strings equal up to case lower-case to the same string. */
  lemma LowerRespectsCase(s: string, t: string)
    requires EqualIgnoringCase(s, t)
    ensures Lower(s) == Lower(t)
  {
  }

  /**
   * The text after the last `c` in `s`, or all of `s` when `c` does not occur:
   * the longest suffix of `s` that holds no `c`.
   */
  function AfterLast(s: string, c: char): (r: string)
    ensures |r| <= |s| && r == s[|s| - |r|..]
    ensures c !in r
    ensures |r| < |s| ==> s[|s| - |r| - 1] == c
    decreases |s|
  {
    if s == [] then []
    else if s[|s| - 1] == c then []
    else
      var init := s[..|s| - 1];
      var rest := AfterLast(init, c);
      assert rest + [s[|s| - 1]] == s[|init| - |rest|..];
      rest + [s[|s| - 1]]
  }

  /** With no `c` in `s`, the text after the last `c` is all of `s`. */
  lemma AfterLastAbsent(s: string, c: char)
    requires c !in s
    ensures AfterLast(s, c) == s
  {
  }

  /** The text after the last `c` of `s + [c] + t` is `t` when `t` holds no `c`. */
  lemma {:induction false} AfterLastOfJoin(s: string, c: char, t: string)
    requires c !in t
    ensures AfterLast(s + [c] + t, c) == t
    decreases |t|
  {
    var w := s + [c] + t;
    if t == [] {
      assert w[|w| - 1] == c;
    } else {
      var init := t[..|t| - 1];
      assert t[|t| - 1] in t;
      assert w[..|w| - 1] == s + [c] + init;
      assert c !in init by {
        forall k | 0 <= k < |init| ensures init[k] != c {
          assert init[k] == t[k];
        }
      }
      AfterLastOfJoin(s, c, init);
      assert init + [t[|t| - 1]] == t;
    }
  }

  /** The decimal digit for 0..9. */
  function DigitChar(d: nat): (c: char)
    requires d < 10
    ensures '0' <= c <= '9'
  {
    "0123456789"[d]
  }

  /** Decimal digits of a natural number, most significant first, without leading zeros. */
  function NatToString(n: nat): (s: string)
    ensures |s| > 0
    ensures forall i :: 0 <= i < |s| ==> '0' <= s[i] <= '9'
    decreases n
  {
    if n < 10 then [DigitChar(n)] else NatToString(n / 10) + [DigitChar(n % 10)]
  }

  /** The decimal rendering of an integer, with a leading '-' when it is negative. */
  function IntToString(i: int): (s: string)
    ensures |s| > 0
    ensures forall k :: 0 <= k < |s| ==> s[k] == '-' || '0' <= s[k] <= '9'
  {
    if i < 0 then "-" + NatToString(-i) else NatToString(i)
  }
}
