/**
 * The Python `str` operations the backend relies on, stated over `seq<char>`:
 * `strip()`, `rstrip(chars)`, `startswith`, the `in` substring test,
 * `lower()`, `replace`, `find`/`rfind` and decimal rendering of integers.
 */
module PyText {
  import opened Wrappers

  /** Python's `str.isspace()` for a single character. */
  predicate IsSpace(c: char) {
    c == ' ' || ('\t' <= c <= '\r') || ('\U{1c}' <= c <= '\U{1f}')
    || c == '\U{85}' || c == '\U{a0}' || c == '\U{1680}'
    || ('\U{2000}' <= c <= '\U{200a}') || c == '\U{2028}' || c == '\U{2029}'
    || c == '\U{202f}' || c == '\U{205f}' || c == '\U{3000}'
  }

  predicate IsBacktick(c: char) {
    c == '`'
  }

  /** Drops the longest prefix whose characters all satisfy `drop`. */
  function LStripBy(s: string, drop: char -> bool): (r: string)
    ensures |r| <= |s| && r == s[|s| - |r|..]
    ensures forall i :: 0 <= i < |s| - |r| ==> drop(s[i])
    ensures r == [] || !drop(r[0])
    decreases |s|
  {
    if |s| > 0 && drop(s[0]) then LStripBy(s[1..], drop) else s
  }

  /** Python's `s.rstrip(chars)`: drops the longest suffix whose characters all satisfy `drop`. */
  function RStripBy(s: string, drop: char -> bool): (r: string)
    ensures |r| <= |s| && r == s[..|r|]
    ensures forall i :: |r| <= i < |s| ==> drop(s[i])
    ensures r == [] || !drop(r[|r| - 1])
    decreases |s|
  {
    if |s| > 0 && drop(s[|s| - 1]) then RStripBy(s[..|s| - 1], drop) else s
  }

  /**
   * `r` is `s[a..a + |r|]`, every character of `s` outside that slice
   * satisfies `drop`, and `r` neither starts nor ends with such a character.
   */
  predicate TrimmedAt(s: string, r: string, a: int, drop: char -> bool) {
    && 0 <= a <= |s| - |r|
    && r == s[a..a + |r|]
    && (forall i :: 0 <= i < a ==> drop(s[i]))
    && (forall i :: a + |r| <= i < |s| ==> drop(s[i]))
    && (r == [] || (!drop(r[0]) && !drop(r[|r| - 1])))
  }

  /** Python's `s.strip()` with no argument. */
  function Strip(s: string): (r: string)
    ensures exists a :: TrimmedAt(s, r, a, IsSpace)
  {
    var left := LStripBy(s, IsSpace);
    var r := RStripBy(left, IsSpace);
    SliceTrimmed(s, left, r, IsSpace);
    r
  }

  /** A right-stripped left strip of `s` is a trimmed slice of `s`. */
  lemma SliceTrimmed(s: string, left: string, r: string, drop: char -> bool)
    requires |left| <= |s| && left == s[|s| - |left|..]
    requires forall i :: 0 <= i < |s| - |left| ==> drop(s[i])
    requires left == [] || !drop(left[0])
    requires |r| <= |left| && r == left[..|r|]
    requires forall i :: |r| <= i < |left| ==> drop(left[i])
    requires r == [] || !drop(r[|r| - 1])
    ensures TrimmedAt(s, r, |s| - |left|, drop)
  {
    var a := |s| - |left|;
    assert r == s[a..a + |r|];
    forall i | a + |r| <= i < |s| ensures drop(s[i]) {
      assert s[i] == left[i - a];
    }
    if r != [] {
      assert r[0] == left[0];
    }
  }

  predicate StartsWith(s: string, prefix: string) {
    |prefix| <= |s| && s[..|prefix|] == prefix
  }

  /** Python's `sub in s` on two strings. */
  predicate Contains(s: string, sub: string)
    decreases |s|
  {
    StartsWith(s, sub) || (|s| > 0 && Contains(s[1..], sub))
  }

  /** The character-wise `lower()` on ASCII letters. */
  function LowerChar(c: char): char {
    if 'A' <= c <= 'Z' then (c as int + 32) as char else c
  }

  function Lower(s: string): (r: string)
    ensures |r| == |s|
    ensures forall i :: 0 <= i < |r| ==> !('A' <= r[i] <= 'Z')
    ensures forall i :: 0 <= i < |s| && 'A' <= s[i] <= 'Z' ==> r[i] == (s[i] as int + 32) as char
    ensures forall i :: 0 <= i < |s| && !('A' <= s[i] <= 'Z') ==> r[i] == s[i]
  {
    seq(|s|, i requires 0 <= i < |s| => LowerChar(s[i]))
  }

  /** Python's `s.replace(c, with)` for a one-character pattern. */
  function ReplaceChar(s: string, c: char, with: string): (r: string)
    decreases |s|
  {
    if s == [] then []
    else (if s[0] == c then with else [s[0]]) + ReplaceChar(s[1..], c, with)
  }

  /** Python's `s.find(c)` for a single character, `None` standing for -1. */
  function IndexOf(s: string, c: char): (r: Option<nat>)
    ensures r.Some? ==> r.value < |s| && s[r.value] == c && c !in s[..r.value]
    ensures r.None? ==> c !in s
    decreases |s|
  {
    if s == [] then None
    else if s[0] == c then Some(0)
    else match IndexOf(s[1..], c)
      case None => None
      case Some(k) => Some(k + 1)
  }

  /** Python's `s.rfind(c)` for a single character, `None` standing for -1. */
  function LastIndexOf(s: string, c: char): (r: Option<nat>)
    ensures r.Some? ==> r.value < |s| && s[r.value] == c && c !in s[r.value + 1..]
    ensures r.None? ==> c !in s
    decreases |s|
  {
    if s == [] then None
    else if s[|s| - 1] == c then Some(|s| - 1)
    else LastIndexOf(s[..|s| - 1], c)
  }

  function DigitChar(d: nat): char
    requires d < 10
  {
    ('0' as int + d) as char
  }

  /** Decimal rendering of a natural number, as Python's `str(n)` or an f-string gives it. */
  function NatToString(n: nat): (r: string)
    ensures |r| > 0
    ensures forall i :: 0 <= i < |r| ==> '0' <= r[i] <= '9'
    decreases n
  {
    if n < 10 then [DigitChar(n)] else NatToString(n / 10) + [DigitChar(n % 10)]
  }

  /** Reads a run of decimal digits back as a number: the inverse of `NatToString`. */
  function DigitsValue(s: string): nat
    requires forall i :: 0 <= i < |s| ==> '0' <= s[i] <= '9'
    decreases |s|
  {
    if s == [] then 0
    else 10 * DigitsValue(s[..|s| - 1]) + (s[|s| - 1] as int - '0' as int)
  }

  /** `sub` occurs in `s` starting at index `i`. */
  predicate OccursAt(s: string, sub: string, i: int) {
    0 <= i && i + |sub| <= |s| && s[i..i + |sub|] == sub
  }

  /** The recursive `Contains` is the usual "occurs at some index". */
  lemma {:induction false} ContainsIffOccurs(s: string, sub: string)
    ensures Contains(s, sub) <==> exists i :: OccursAt(s, sub, i)
    decreases |s|
  {
    if StartsWith(s, sub) {
      assert OccursAt(s, sub, 0);
    } else if |s| > 0 {
      ContainsIffOccurs(s[1..], sub);
      if Contains(s[1..], sub) {
        var i :| OccursAt(s[1..], sub, i);
        assert s[1..][i..i + |sub|] == s[i + 1..i + 1 + |sub|];
        assert OccursAt(s, sub, i + 1);
      } else {
        forall i | OccursAt(s, sub, i) ensures false {
          if i > 0 {
            assert s[1..][i - 1..i - 1 + |sub|] == s[i..i + |sub|];
            assert OccursAt(s[1..], sub, i - 1);
          }
        }
      }
    } else {
      assert !exists i :: OccursAt(s, sub, i);
    }
  }

  /** Reading back the decimal rendering gives the number: `NatToString` is injective. */
  lemma {:induction false} NatToStringRoundTrip(n: nat)
    ensures DigitsValue(NatToString(n)) == n
    decreases n
  {
    if n >= 10 {
      var r := NatToString(n);
      NatToStringRoundTrip(n / 10);
      assert r[..|r| - 1] == NatToString(n / 10);
    }
  }

  lemma NatToStringInjective(m: nat, n: nat)
    requires NatToString(m) == NatToString(n)
    ensures m == n
  {
    NatToStringRoundTrip(m);
    NatToStringRoundTrip(n);
  }

  /** After `s.replace(c, with)`, where `with` does not hold `c`, no `c` is left. */
  lemma {:induction false} ReplaceCharRemovesAll(s: string, c: char, with: string)
    requires c !in with
    ensures c !in ReplaceChar(s, c, with)
    decreases |s|
  {
    if s != [] {
      ReplaceCharRemovesAll(s[1..], c, with);
    }
  }

  /** `s.replace(c, with)` leaves a string without `c` unchanged. */
  lemma {:induction false} ReplaceCharAbsent(s: string, c: char, with: string)
    requires c !in s
    ensures ReplaceChar(s, c, with) == s
    decreases |s|
  {
    if s != [] {
      assert s == [s[0]] + s[1..];
      ReplaceCharAbsent(s[1..], c, with);
    }
  }

  /** Stripping a prefix made only of dropped characters leaves the rest, when the rest starts with a kept one. */
  lemma {:induction false} LStripByPrefix(a: string, x: string, drop: char -> bool)
    requires forall i :: 0 <= i < |a| ==> drop(a[i])
    requires x == [] || !drop(x[0])
    ensures LStripBy(a + x, drop) == x
    decreases |a|
  {
    if a == [] {
      assert a + x == x;
    } else {
      assert (a + x)[0] == a[0] && (a + x)[1..] == a[1..] + x;
      LStripByPrefix(a[1..], x, drop);
    }
  }

  /** Stripping a suffix made only of dropped characters leaves the rest, when the rest ends with a kept one. */
  lemma {:induction false} RStripBySuffix(x: string, b: string, drop: char -> bool)
    requires forall i :: 0 <= i < |b| ==> drop(b[i])
    requires x == [] || !drop(x[|x| - 1])
    ensures RStripBy(x + b, drop) == x
    decreases |b|
  {
    if b == [] {
      assert x + b == x;
    } else {
      var s := x + b;
      assert s[|s| - 1] == b[|b| - 1] && s[..|s| - 1] == x + b[..|b| - 1];
      RStripBySuffix(x, b[..|b| - 1], drop);
    }
  }

  /** `strip()` removes exactly the whitespace around a text that starts and ends with non-whitespace. */
  lemma StripSurrounded(a: string, x: string, b: string)
    requires forall i :: 0 <= i < |a| ==> IsSpace(a[i])
    requires forall i :: 0 <= i < |b| ==> IsSpace(b[i])
    requires x != [] && !IsSpace(x[0]) && !IsSpace(x[|x| - 1])
    ensures Strip(a + x + b) == x
  {
    assert a + x + b == a + (x + b);
    LStripByPrefix(a, x + b, IsSpace);
    RStripBySuffix(x, b, IsSpace);
  }
}
