/**
 * Character classes and string helpers shared by the normaliser, the
 * marketing serialiser and the partitioners: Python's `str.strip()`,
 * ASCII lower-casing, character removal (the regular-expression replaces
 * with an empty replacement), and decimal rendering of file-name indices.
 */
module Strings {

  /** Python's `str.isspace()` (and the `\s` class of `re` on text):
      the Unicode whitespace code points. */
  predicate IsSpace(c: char)
  {
    var n := c as int;
    (9 <= n <= 13) || (28 <= n <= 32) || n == 0x85 || n == 0xA0 || n == 0x1680
    || (0x2000 <= n <= 0x200A) || n == 0x2028 || n == 0x2029 || n == 0x202F
    || n == 0x205F || n == 0x3000
  }

  predicate IsDigit(c: char)
  {
    '0' <= c <= '9'
  }

  predicate AllDigits(s: string)
  {
    forall i :: 0 <= i < |s| ==> IsDigit(s[i])
  }

  /** Drops leading whitespace: the result is the longest suffix of `s`
      that does not start with whitespace. */
  function TrimLeft(s: string): (r: string)
    ensures |r| <= |s| && r == s[|s| - |r|..]
    ensures forall i :: 0 <= i < |s| - |r| ==> IsSpace(s[i])
    ensures r != [] ==> !IsSpace(r[0])
  {
    if s != [] && IsSpace(s[0]) then TrimLeft(s[1..]) else s
  }

  /** Drops trailing whitespace: the result is the longest prefix of `s`
      that does not end with whitespace. */
  function TrimRight(s: string): (r: string)
    ensures |r| <= |s| && r == s[..|r|]
    ensures forall i :: |r| <= i < |s| ==> IsSpace(s[i])
    ensures r != [] ==> !IsSpace(r[|r| - 1])
  {
    if s != [] && IsSpace(s[|s| - 1]) then TrimRight(s[..|s| - 1]) else s
  }

  /** How many whitespace characters Trim drops at the front. */
  function LeadingSpaces(s: string): (n: nat)
    ensures n <= |s|
  {
    |s| - |TrimLeft(s)|
  }

  /** Python's `str.strip()` with no argument: the result is a contiguous
      piece of `s`, everything around it is whitespace, and it neither
      starts nor ends with whitespace. */
  function Trim(s: string): (r: string)
    ensures LeadingSpaces(s) + |r| <= |s| && r == s[LeadingSpaces(s)..LeadingSpaces(s) + |r|]
    ensures forall i :: 0 <= i < LeadingSpaces(s) ==> IsSpace(s[i])
    ensures forall i :: LeadingSpaces(s) + |r| <= i < |s| ==> IsSpace(s[i])
    ensures r != [] ==> !IsSpace(r[0]) && !IsSpace(r[|r| - 1])
  {
    var l := TrimLeft(s);
    var r := TrimRight(l);
    var p := |s| - |l|;
    assert l == s[p..] && r == l[..|r|];
    assert forall i :: p + |r| <= i < |s| ==> s[i] == l[i - p];
    assert r != [] ==> r[0] == l[0];
    r
  }

  /** Stripping an already stripped string changes nothing. */
  lemma TrimIdempotent(s: string)
    ensures Trim(Trim(s)) == Trim(s)
  {
    var r := Trim(s);
    if r != [] {
      assert TrimLeft(r) == r;
      assert TrimRight(r) == r;
    }
  }

  function LowerChar(c: char): char
  {
    if 'A' <= c <= 'Z' then (c as int + 32) as char else c
  }

  /** ASCII lower-casing, which is what `str.lower()` does on the header
      names the normaliser compares against. */
  function Lower(s: string): (r: string)
    ensures |r| == |s| && forall i :: 0 <= i < |s| ==> r[i] == LowerChar(s[i])
  {
    if s == [] then [] else [LowerChar(s[0])] + Lower(s[1..])
  }

  /** Lower-casing twice is lower-casing once. */
  lemma LowerIdempotent(s: string)
    ensures Lower(Lower(s)) == Lower(s)
  {
    forall i | 0 <= i < |s| ensures LowerChar(LowerChar(s[i])) == LowerChar(s[i]) {
    }
  }

  /** The characters of `s` for which `drop` is false, in order: a regular
      expression replace of a character class by the empty string. */
  function Remove(s: string, drop: char -> bool): (r: string)
    ensures |r| <= |s|
    ensures forall i :: 0 <= i < |r| ==> !drop(r[i])
    ensures (forall i :: 0 <= i < |s| ==> !drop(s[i])) ==> r == s
  {
    if s == [] then []
    else if drop(s[0]) then Remove(s[1..], drop)
    else [s[0]] + Remove(s[1..], drop)
  }

  /** A single character is dropped when `drop` holds for it and kept
      otherwise. */
  lemma RemoveOne(c: char, drop: char -> bool)
    ensures Remove([c], drop) == if drop(c) then [] else [c]
  {
    assert [c][1..] == [];
  }

  /** Removal works piecewise. With RemoveOne this fixes the result
      completely: exactly the dropped characters go, and the others stay
      in their order. */
  lemma {:induction false} RemoveAppend(a: string, b: string, drop: char -> bool)
    ensures Remove(a + b, drop) == Remove(a, drop) + Remove(b, drop)
  {
    if a == [] {
      assert a + b == b;
    } else {
      assert (a + b)[1..] == a[1..] + b;
      RemoveAppend(a[1..], b, drop);
    }
  }

  /** Removing a class that contains another class's characters makes the
      smaller removal redundant. */
  lemma {:induction false} RemoveSubsumed(s: string, small: char -> bool, big: char -> bool)
    requires forall c :: small(c) ==> big(c)
    ensures Remove(Remove(s, small), big) == Remove(s, big)
  {
    if s != [] {
      RemoveSubsumed(s[1..], small, big);
    }
  }

  function DigitChar(d: nat): char
    requires d < 10
  {
    ('0' as int + d) as char
  }

  /** `str(n)` for a natural number. */
  function NatToString(n: nat): (r: string)
    ensures r != [] && AllDigits(r)
    ensures r[0] == '0' ==> n == 0
  {
    if n < 10 then [DigitChar(n)] else NatToString(n / 10) + [DigitChar(n % 10)]
  }

  /** The value of a decimal digit string (`int(s)`, with "" read as 0). */
  function DigitsValue(s: string): nat
    requires AllDigits(s)
  {
    if s == [] then 0 else DigitsValue(s[..|s| - 1]) * 10 + (s[|s| - 1] as int - '0' as int)
  }

  /** Reading back what NatToString wrote gives the number. */
  lemma {:induction false} NatToStringRoundTrip(n: nat)
    ensures DigitsValue(NatToString(n)) == n
  {
    if n >= 10 {
      var s := NatToString(n);
      assert s[..|s| - 1] == NatToString(n / 10);
      NatToStringRoundTrip(n / 10);
    }
  }

  /** Different numbers are rendered differently. */
  lemma NatToStringInjective(m: nat, n: nat)
    ensures NatToString(m) == NatToString(n) ==> m == n
  {
    NatToStringRoundTrip(m);
    NatToStringRoundTrip(n);
  }

  /** `f'{base}{infix}{i}.csv'`, the names the partitioners give their files. */
  function FileName(base: string, infix: string, i: nat): (r: string)
    ensures |r| > |base| + |infix| + 4
    ensures r[..|base| + |infix|] == base + infix && r[|r| - 4..] == ".csv"
  {
    base + infix + NatToString(i) + ".csv"
  }

  /** Between the prefix and `.csv` a file name holds the index in
      decimal. */
  lemma FileNameIndex(base: string, infix: string, i: nat)
    ensures var r := FileName(base, infix, i);
      && AllDigits(r[|base| + |infix|..|r| - 4])
      && DigitsValue(r[|base| + |infix|..|r| - 4]) == i
  {
    var r := FileName(base, infix, i);
    assert r[|base| + |infix|..|r| - 4] == NatToString(i);
    NatToStringRoundTrip(i);
  }

  /** Two file names built from the same base and infix are equal only
      when their indices are. */
  lemma FileNameInjective(base: string, infix: string, i: nat, j: nat)
    ensures FileName(base, infix, i) == FileName(base, infix, j) <==> i == j
  {
    var a, b := FileName(base, infix, i), FileName(base, infix, j);
    if a == b {
      var p := |base + infix|;
      var di, dj := NatToString(i), NatToString(j);
      assert |di| == |dj|;
      assert a[p..p + |di|] == di;
      assert b[p..p + |dj|] == dj;
      NatToStringInjective(i, j);
    }
  }
}
