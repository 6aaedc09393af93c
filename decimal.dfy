/**
 * Decimal text: how the server renders a millisecond timestamp into an upload
 * name (`Date.now() + '-' + ...`), how a textual route or body id selects a row,
 * and how the database reads a submitted numeric field.
 */
module Decimal {
  import opened Wrappers

  predicate IsDigit(c: char) {
    '0' <= c <= '9'
  }

  predicate AllDigits(s: string) {
    forall i :: 0 <= i < |s| ==> IsDigit(s[i])
  }

  function DigitChar(d: nat): (c: char)
    requires d < 10
    ensures IsDigit(c) && c as int - '0' as int == d
  {
    (d + '0' as int) as char
  }

  function DigitValue(c: char): (d: nat)
    requires IsDigit(c)
    ensures d < 10 && DigitChar(d) == c
  {
    c as int - '0' as int
  }

  /** The decimal rendering of `n`, without leading zeros, as JavaScript prints a non-negative integer. */
  function NatToDecimal(n: nat): (r: string)
    ensures |r| > 0 && AllDigits(r)
    ensures r[0] == '0' ==> n == 0
  {
    if n < 10 then [DigitChar(n)] else NatToDecimal(n / 10) + [DigitChar(n % 10)]
  }

  /** The value of a string of decimal digits, most significant digit first. */
  function DigitsValue(s: string): nat
    requires AllDigits(s)
  {
    if s == [] then 0 else DigitsValue(s[..|s| - 1]) * 10 + DigitValue(s[|s| - 1])
  }

  /** A non-empty string of decimal digits read as a natural number; anything else is rejected. */
  function ParseNat(s: string): (r: Option<nat>)
    ensures r.Some? <==> |s| > 0 && AllDigits(s)
  {
    if |s| > 0 && AllDigits(s) then Some(DigitsValue(s)) else None
  }

  lemma {:induction false} ParseNatOfDecimal(n: nat)
    ensures ParseNat(NatToDecimal(n)) == Some(n)
  {
    var s := NatToDecimal(n);
    if n < 10 {
      assert s[..|s| - 1] == [];
      assert DigitsValue(s) == DigitValue(s[0]) == n;
    } else {
      ParseNatOfDecimal(n / 10);
      assert s[..|s| - 1] == NatToDecimal(n / 10);
      assert DigitsValue(s[..|s| - 1]) == n / 10;
      assert DigitValue(s[|s| - 1]) == n % 10;
      assert DigitsValue(s) == (n / 10) * 10 + n % 10;
    }
  }

  /** Distinct timestamps render as distinct decimal strings. */
  lemma NatToDecimalInjective(m: nat, n: nat)
    ensures NatToDecimal(m) == NatToDecimal(n) ==> m == n
  {
    ParseNatOfDecimal(m);
    ParseNatOfDecimal(n);
  }

  function Pow10(k: nat): (p: nat)
    ensures p >= 1
  {
    if k == 0 then 1 else 10 * Pow10(k - 1)
  }

  /** The index of the first `c` in `s`, or `|s|` when there is none. */
  function IndexOf(s: string, c: char): (i: nat)
    ensures i <= |s|
    ensures i < |s| ==> s[i] == c
    ensures forall j :: 0 <= j < i ==> s[j] != c
  {
    if s == [] then 0
    else if s[0] == c then 0
    else 1 + IndexOf(s[1..], c)
  }

  /** The value of a decimal with whole digits `whole` and fraction digits `fraction`. */
  function Scaled(whole: string, fraction: string): real
    requires AllDigits(whole) && AllDigits(fraction)
  {
    DigitsValue(whole) as real + DigitsValue(fraction) as real / Pow10(|fraction|) as real
  }

  /** An unsigned decimal: digits, optionally followed by '.' and at least one more digit. */
  function ParseUnsigned(s: string): Option<real>
  {
    var i := IndexOf(s, '.');
    var whole, fraction := s[..i], if i < |s| then s[i + 1..] else "";
    if |whole| == 0 || !AllDigits(whole) then None
    else if i == |s| then Some(DigitsValue(whole) as real)
    else if |fraction| == 0 || !AllDigits(fraction) then None
    else Some(Scaled(whole, fraction))
  }

  /**
   * The value a numeric column takes for a submitted text: an optional '-'
   * followed by an unsigned decimal. Any other text is refused by the
   * database (the statement fails).
   */
  function ParseNumber(s: string): Option<real>
  {
    if |s| > 0 && s[0] == '-' then
      match ParseUnsigned(s[1..])
      case Some(x) => Some(-x)
      case None => None
    else ParseUnsigned(s)
  }

  /** Unsigned decimal text, defined by its shape: digits, or digits, a '.', and digits. */
  predicate UnsignedText(s: string) {
    (|s| > 0 && AllDigits(s))
    || exists k :: 0 < k < |s| - 1 && s[k] == '.' && AllDigits(s[..k]) && AllDigits(s[k + 1..])
  }

  /** Decimal text: unsigned decimal text, optionally preceded by '-'. */
  predicate DecimalText(s: string) {
    UnsignedText(s) || (|s| > 0 && s[0] == '-' && UnsignedText(s[1..]))
  }

  /** A numeric column accepts a text exactly when the text is a decimal number. */
  lemma ParseNumberAccepts(s: string)
    ensures ParseNumber(s).Some? <==> DecimalText(s)
  {
    if |s| > 0 && s[0] == '-' {
      ParseUnsignedAccepts(s[1..]);
      assert !UnsignedText(s) by {
        assert !IsDigit(s[0]);
        forall k | 0 < k < |s| - 1 ensures !AllDigits(s[..k]) {
          assert s[..k][0] == s[0];
        }
      }
    } else {
      ParseUnsignedAccepts(s);
    }
  }

  lemma ParseUnsignedAccepts(s: string)
    ensures ParseUnsigned(s).Some? <==> UnsignedText(s)
  {
    if ParseUnsigned(s).Some? {
      AcceptedIsUnsigned(s);
    }
    if UnsignedText(s) {
      if |s| > 0 && AllDigits(s) {
        IndexOfInDigits(s, '.');
        assert s[..|s|] == s;
      } else {
        var k :| 0 < k < |s| - 1 && s[k] == '.' && AllDigits(s[..k]) && AllDigits(s[k + 1..]);
        PointAfterDigits(s, k);
      }
    }
  }

  lemma AcceptedIsUnsigned(s: string)
    requires ParseUnsigned(s).Some?
    ensures UnsignedText(s)
  {
    var i := IndexOf(s, '.');
    if i == |s| {
      assert s[..i] == s;
    } else {
      assert 0 < i < |s| - 1 && s[i] == '.' && AllDigits(s[..i]) && AllDigits(s[i + 1..]);
    }
  }

  /** Digits, a '.' at `k`, and digits: the whole part and the fraction split at `k`. */
  lemma PointAfterDigits(s: string, k: nat)
    requires 0 < k < |s| - 1 && s[k] == '.' && AllDigits(s[..k]) && AllDigits(s[k + 1..])
    ensures ParseUnsigned(s).Some?
  {
    forall j | 0 <= j < k ensures s[j] != '.' {
      assert s[..k][j] == s[j];
    }
    assert IndexOf(s, '.') == k;
  }

  lemma IndexOfInDigits(s: string, c: char)
    requires AllDigits(s) && !IsDigit(c)
    ensures IndexOf(s, c) == |s|
  {
  }

  /** An integer rendered in decimal is read back as the same number, with or without a minus sign. */
  lemma ParseNumberOfDecimal(n: nat)
    ensures ParseNumber(NatToDecimal(n)) == Some(n as real)
    ensures ParseNumber("-" + NatToDecimal(n)) == Some(-(n as real))
  {
    var s := NatToDecimal(n);
    ParseNatOfDecimal(n);
    IndexOfInDigits(s, '.');
    assert s[..|s|] == s;
    assert ("-" + s)[1..] == s;
  }

  /** A fixed-point decimal such as "4.5" is read as its whole part plus its scaled fraction. */
  lemma ParseNumberOfFixedPoint(whole: nat, fraction: string)
    requires |fraction| > 0 && AllDigits(fraction)
    ensures ParseNumber(NatToDecimal(whole) + "." + fraction) == Some(Scaled(NatToDecimal(whole), fraction))
    ensures Scaled(NatToDecimal(whole), fraction) == whole as real + DigitsValue(fraction) as real / Pow10(|fraction|) as real
  {
    var w := NatToDecimal(whole);
    var s := w + "." + fraction;
    FixedPointUnsigned(w, fraction);
    ParseNatOfDecimal(whole);
    assert s[0] == w[0];
  }

  /** Digits, a '.', and more digits: the whole part and the fraction are split at that '.'. */
  lemma FixedPointUnsigned(w: string, fraction: string)
    requires |w| > 0 && AllDigits(w) && |fraction| > 0 && AllDigits(fraction)
    ensures ParseUnsigned(w + "." + fraction) == Some(Scaled(w, fraction))
  {
    var s := w + "." + fraction;
    IndexAfterDigits(w, '.', fraction);
    assert IndexOf(s, '.') == |w|;
    assert s[..|w|] == w;
    assert s[|w| + 1..] == fraction;
  }

  /** In digits followed by a non-digit `c`, the first `c` is the one right after the digits. */
  lemma {:induction false} IndexAfterDigits(w: string, c: char, rest: string)
    requires AllDigits(w) && !IsDigit(c)
    ensures IndexOf(w + [c] + rest, c) == |w|
  {
    if w != [] {
      IndexAfterDigits(w[1..], c, rest);
      assert (w + [c] + rest)[1..] == w[1..] + [c] + rest;
    }
  }
}
