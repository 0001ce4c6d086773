/**
 * The rewriting of one identifier (CPF) cell, app.py lines 82-92, in the
 * order the source applies it: drop a trailing `\.0+`, drop dots, hyphens
 * and whitespace, drop every other non-digit, reject an empty or over-long
 * digit string, left-pad with zeros to 11.
 */
module CpfCell {
  import opened Strings
  import opened Tables

  /** Width of a canonical CPF. */
  const CpfWidth: nat := 11

  /** A canonical CPF: exactly eleven ASCII digits. */
  predicate ValidCpf(v: string)
  {
    |v| == CpfWidth && AllDigits(v)
  }

  /** The regular expression `\.0+$` matches `s` at position `k`: a dot
      followed by one or more zeros up to the end of the string. */
  predicate DotZerosAt(s: string, k: int)
  {
    0 <= k && k + 1 < |s| && s[k] == '.' && forall m :: k < m < |s| ==> s[m] == '0'
  }

  /** Length of the run of '0' characters that ends `s`. */
  function TrailingZeros(s: string): (n: nat)
    ensures n <= |s|
    ensures forall m :: |s| - n <= m < |s| ==> s[m] == '0'
    ensures n < |s| ==> s[|s| - n - 1] != '0'
  {
    if s != [] && s[|s| - 1] == '0' then TrailingZeros(s[..|s| - 1]) + 1 else 0
  }

  /** `re.sub(r'\.0+$', '', s)`: removes the match if there is one (there
      is at most one, since only the last dot can be followed by nothing
      but zeros) and leaves `s` alone otherwise. */
  function StripDecimalZeros(s: string): (r: string)
    ensures forall k :: DotZerosAt(s, k) ==> r == s[..k]
    ensures (forall k :: !DotZerosAt(s, k)) ==> r == s
  {
    var z := TrailingZeros(s);
    if 0 < z < |s| && s[|s| - z - 1] == '.' then
      assert DotZerosAt(s, |s| - z - 1);
      s[..|s| - z - 1]
    else
      s
  }

  /** The class `[.\-\s]` of line 84. */
  predicate IsSeparator(c: char)
  {
    c == '.' || c == '-' || IsSpace(c)
  }

  /** The class `[^0-9]` of line 86. */
  predicate IsNonDigit(c: char)
  {
    !IsDigit(c)
  }

  /** The cell after the three replaces of lines 82, 84 and 86. */
  function CpfDigits(s: string): (d: string)
    ensures AllDigits(d)
  {
    Remove(Remove(StripDecimalZeros(s), IsSeparator), IsNonDigit)
  }

  /** The separator replace of line 84 is subsumed by the one of line 86:
      only the order relative to line 82 matters. */
  lemma SeparatorStepRedundant(s: string)
    ensures CpfDigits(s) == Remove(StripDecimalZeros(s), IsNonDigit)
  {
    RemoveSubsumed(StripDecimalZeros(s), IsSeparator, IsNonDigit);
  }

  function Zeros(n: nat): (r: string)
    ensures |r| == n && forall i :: 0 <= i < n ==> r[i] == '0'
  {
    if n == 0 then [] else Zeros(n - 1) + "0"
  }

  /** Python's `str.zfill(w)`: pads with zeros on the left up to width `w`,
      keeping a leading sign in front of the padding. */
  function ZFill(s: string, w: nat): (r: string)
    ensures |s| >= w ==> r == s
    ensures |s| < w ==> |r| == w
  {
    if |s| >= w then s
    else if |s| > 0 && (s[0] == '+' || s[0] == '-') then [s[0]] + Zeros(w - |s|) + s[1..]
    else Zeros(w - |s|) + s
  }

  /** Zero padding does not change the number a digit string denotes. */
  lemma {:induction false} ZerosPrefixValue(n: nat, s: string)
    requires AllDigits(s)
    ensures AllDigits(Zeros(n) + s) && DigitsValue(Zeros(n) + s) == DigitsValue(s)
  {
    if s == [] {
      assert Zeros(n) + s == Zeros(n);
      ZerosValue(n);
    } else {
      var t := Zeros(n) + s;
      assert t[..|t| - 1] == Zeros(n) + s[..|s| - 1];
      ZerosPrefixValue(n, s[..|s| - 1]);
    }
  }

  lemma {:induction false} ZerosValue(n: nat)
    ensures AllDigits(Zeros(n)) && DigitsValue(Zeros(n)) == 0
  {
    if n > 0 {
      assert Zeros(n)[..n - 1] == Zeros(n - 1);
      ZerosValue(n - 1);
    }
  }

  /** On a digit string zfill is plain left padding, and the result is a
      digit string of the same value. */
  lemma ZFillDigits(d: string, w: nat)
    requires AllDigits(d)
    ensures |d| < w ==> ZFill(d, w) == Zeros(w - |d|) + d
    ensures AllDigits(ZFill(d, w)) && DigitsValue(ZFill(d, w)) == DigitsValue(d)
  {
    if |d| < w {
      assert !IsDigit('+') && !IsDigit('-');
      ZerosPrefixValue(w - |d|, d);
    }
  }

  /** One CPF cell after lines 82-92: `None` when the row is dropped
      (line 88: empty digit string; line 90: more than 11 digits),
      otherwise the zero-padded value of line 92. */
  function CleanCpf(s: string): (r: Option<string>)
    ensures r.Some? <==> 1 <= |CpfDigits(s)| <= CpfWidth
    ensures r.Some? ==> ValidCpf(r.value)
    ensures r.Some? ==> r.value == Zeros(CpfWidth - |CpfDigits(s)|) + CpfDigits(s)
    ensures r.Some? ==> DigitsValue(r.value) == DigitsValue(CpfDigits(s))
  {
    var d := CpfDigits(s);
    if |d| == 0 then None
    else if |d| > CpfWidth then None
    else
      ZFillDigits(d, CpfWidth);
      Some(ZFill(d, CpfWidth))
  }

  /** A digit string goes through the three replaces untouched. */
  lemma DigitsSurvive(d: string)
    requires AllDigits(d)
    ensures StripDecimalZeros(d) == d
    ensures Remove(d, IsSeparator) == d && Remove(d, IsNonDigit) == d
    ensures CpfDigits(d) == d
  {
    forall k ensures !DotZerosAt(d, k) {
      if 0 <= k < |d| {
        assert IsDigit(d[k]);
      }
    }
    forall i | 0 <= i < |d| ensures !IsSeparator(d[i]) {
      assert IsDigit(d[i]);
    }
  }

  /** A value misread as a float, digits `p` followed by a dot and zeros,
      loses the remnant because line 82 runs before the digit filter: the
      digit filter alone would keep the zeros. */
  lemma CpfDigitsOfFloatRemnant(p: string, z: nat)
    requires AllDigits(p) && z >= 1
    ensures CpfDigits(p + "." + Zeros(z)) == p
    ensures Remove(p + "." + Zeros(z), IsNonDigit) == p + Zeros(z)
  {
    FloatRemnantStripped(p, z);
    FloatRemnantDigitFilter(p, z);
  }

  /** Line 82 cuts the dot and the zeros; the digits before them survive
      the two replaces. */
  lemma FloatRemnantStripped(p: string, z: nat)
    requires AllDigits(p) && z >= 1
    ensures CpfDigits(p + "." + Zeros(z)) == p
  {
    var s := p + "." + Zeros(z);
    assert DotZerosAt(s, |p|);
    assert s[..|p|] == p;
    assert StripDecimalZeros(s) == p;
    DigitsSurvive(p);
  }

  /** The digit filter alone drops the dot and keeps the zeros. */
  lemma FloatRemnantDigitFilter(p: string, z: nat)
    requires AllDigits(p)
    ensures Remove(p + "." + Zeros(z), IsNonDigit) == p + Zeros(z)
  {
    DigitsSurvive(p);
    ZerosValue(z);
    DigitsSurvive(Zeros(z));
    RemoveAppend(p + ".", Zeros(z), IsNonDigit);
    RemoveAppend(p, ".", IsNonDigit);
  }

  /** A value that is already a canonical CPF passes through unchanged. */
  lemma CleanCpfKeepsValid(v: string)
    requires ValidCpf(v)
    ensures CleanCpf(v) == Some(v)
  {
    DigitsSurvive(v);
  }

  /** Cleaning is idempotent: what it produces it accepts unchanged. */
  lemma CleanCpfIdempotent(s: string)
    requires CleanCpf(s).Some?
    ensures CleanCpf(CleanCpf(s).value) == CleanCpf(s)
  {
    CleanCpfKeepsValid(CleanCpf(s).value);
  }

  // The examples below take their literals as parameters fixed by
  // `requires`: stated on the literals directly, the solver needs far
  // more work for each of them.

  /** "1234567890.0", a value a float reading produces, keeps ten digits
      and gets one zero of padding. */
  lemma CleanCpfFloatExample(s: string, d: string)
    requires s == "1234567890.0" && d == "1234567890"
    ensures CleanCpf(s) == Some("01234567890")
  {
    FloatExampleDigits(s, d);
    assert Zeros(1) == "0";
    assert CleanCpf(s).value == "0" + d;
    assert "0" + d == "01234567890";
  }

  lemma FloatExampleDigits(s: string, d: string)
    requires s == "1234567890.0" && d == "1234567890"
    ensures CpfDigits(s) == d
  {
    assert AllDigits(d);
    assert s == d + "." + Zeros(1);
    FloatRemnantStripped(d, 1);
  }

  /** "12.00" keeps two digits and is padded to eleven. */
  lemma CleanCpfShortFloatExample(s: string, d: string)
    requires s == "12.00" && d == "12"
    ensures CleanCpf(s) == Some("00000000012")
  {
    ShortFloatExampleDigits(s, d);
    assert Zeros(9) == "000000000";
    assert CleanCpf(s).value == "000000000" + d;
    assert "000000000" + d == "00000000012";
  }

  lemma ShortFloatExampleDigits(s: string, d: string)
    requires s == "12.00" && d == "12"
    ensures CpfDigits(s) == d
  {
    assert AllDigits(d);
    assert s == d + "." + Zeros(2);
    FloatRemnantStripped(d, 2);
  }

  /** Digit groups joined by single separators lose the separators. */
  lemma RemoveSeparatorAfterDigits(a: string, c: char, rest: string)
    requires AllDigits(a) && IsSeparator(c)
    ensures Remove(a + [c] + rest, IsSeparator) == a + Remove(rest, IsSeparator)
  {
    DigitsSurvive(a);
    assert [c][1..] == [];
    var x := a + [c];
    RemoveAppend(a, [c], IsSeparator);
    assert Remove(x, IsSeparator) == a + [];
    assert a + [] == a;
    RemoveAppend(x, rest, IsSeparator);
  }

  /** The shape of a formatted CPF, `ddd.ddd.ddd-dd` with groups of any
      length: the separators go and the digit groups stay, in order. */
  lemma RemoveFormattedSeparators(s: string, a: string, b: string, c: string, e: string)
    requires s == a + ['.'] + (b + ['.'] + (c + ['-'] + e))
    requires AllDigits(a) && AllDigits(b) && AllDigits(c) && AllDigits(e)
    ensures Remove(s, IsSeparator) == a + (b + (c + e))
  {
    RemoveSeparatorAfterDigits(c, '-', e);
    RemoveSeparatorAfterDigits(b, '.', c + ['-'] + e);
    RemoveSeparatorAfterDigits(a, '.', b + ['.'] + (c + ['-'] + e));
    DigitsSurvive(e);
  }

  lemma PunctuationExampleSeparators(s: string, a: string, b: string, c: string, e: string)
    requires s == "123.456.789-00"
    requires a == "123" && b == "456" && c == "789" && e == "00"
    ensures Remove(s, IsSeparator) == "12345678900"
  {
    assert AllDigits(a) && AllDigits(b) && AllDigits(c) && AllDigits(e);
    assert s == a + ['.'] + (b + ['.'] + (c + ['-'] + e));
    RemoveFormattedSeparators(s, a, b, c, e);
    assert a + (b + (c + e)) == "12345678900";
  }

  /** Its zeros follow a hyphen, so line 82 leaves the value alone. */
  lemma PunctuationExampleStrip(s: string)
    requires s == "123.456.789-00"
    ensures StripDecimalZeros(s) == s
  {
    forall k | 0 <= k < 11 ensures !DotZerosAt(s, k) {
      assert s[11] == '-';
    }
    assert !DotZerosAt(s, 11) && !DotZerosAt(s, 12) && !DotZerosAt(s, 13);
  }

  /** "123.456.789-00" loses its punctuation only: the trailing zeros
      follow a hyphen, not a dot, so line 82 leaves them. */
  lemma CleanCpfPunctuationExample(s: string, d: string)
    requires s == "123.456.789-00" && d == "12345678900"
    ensures CleanCpf(s) == Some("12345678900")
  {
    PunctuationExampleStrip(s);
    PunctuationExampleSeparators(s, "123", "456", "789", "00");
    DigitsSurvive(d);
    assert Zeros(0) == "";
    assert CleanCpf(s).value == "" + d;
    assert "" + d == d;
  }

  /** "99999999999999" has fourteen digits and drops its row. */
  lemma CleanCpfDropExample(s: string)
    requires s == "99999999999999"
    ensures CleanCpf(s) == None
  {
    DigitsSurvive(s);
    assert |CpfDigits(s)| == 14;
  }
}
