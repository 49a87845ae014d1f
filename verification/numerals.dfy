/** Rendering and reading integers as text in a radix up to 16, the way
    JavaScript's `Number.prototype.toString(radix)` does for integral values
    (lower-case digits, a leading '-' for negatives, no leading zeros), plus
    `String.prototype.padStart` and `Math.round`. */
module Numerals {
  import opened Wrappers

  /** The character for digit `d`: '0'..'9' then 'a'..'f'. */
  function DigitChar(d: nat): char
    requires d < 16
  {
    if d < 10 then ('0' as int + d) as char else ('a' as int + (d - 10)) as char
  }

  /** The value of a digit character, or -1 for a character that is not a
      lower-case hexadecimal digit. */
  function DigitValue(c: char): (v: int)
    ensures -1 <= v < 16
    ensures 0 <= v ==> DigitChar(v) == c
  {
    if '0' <= c <= '9' then c as int - '0' as int
    else if 'a' <= c <= 'f' then c as int - 'a' as int + 10
    else -1
  }

  lemma DigitValueOfChar(d: nat)
    requires d < 16
    ensures DigitValue(DigitChar(d)) == d
  {
  }

  /** Every character of `s` is a digit of the given radix. */
  predicate AllDigits(s: string, radix: nat) {
    forall i :: 0 <= i < |s| ==> 0 <= DigitValue(s[i]) < radix
  }

  /** `s` is a non-empty run of digits of the given radix. */
  predicate IsNumeral(s: string, radix: nat) {
    |s| > 0 && AllDigits(s, radix)
  }

  /** The canonical numeral of `n`: no leading zero unless `n` is zero. */
  function ToRadix(n: nat, radix: nat): (r: string)
    requires 2 <= radix <= 16
    ensures IsNumeral(r, radix)
    ensures |r| == 1 <==> n < radix
    ensures r[0] == '0' ==> n == 0
    decreases n
  {
    if n < radix then [DigitChar(n)]
    else
      DivMod(n, radix);
      ToRadix(n / radix, radix) + [DigitChar(n % radix)]
  }

  /** Euclidean division facts the solver does not find by itself for a
      variable radix. */
  lemma DivMod(n: nat, radix: nat)
    requires 2 <= radix <= n
    ensures 1 <= n / radix < n
    ensures n % radix < radix
    ensures (n / radix) * radix + n % radix == n
  {
  }

  /** The value of a digit string, most significant digit first; the empty
      string reads as zero. */
  function FromRadix(s: string, radix: nat): nat
    requires AllDigits(s, radix)
  {
    if |s| == 0 then 0
    else FromRadix(s[..|s| - 1], radix) * radix + DigitValue(s[|s| - 1])
  }

  /** Reading back a rendered numeral gives the number. */
  lemma {:induction false} FromToRadix(n: nat, radix: nat)
    requires 2 <= radix <= 16
    ensures FromRadix(ToRadix(n, radix), radix) == n
    decreases n
  {
    var r := ToRadix(n, radix);
    if n < radix {
      assert r[..0] == [];
      DigitValueOfChar(n);
    } else {
      var prefix := ToRadix(n / radix, radix);
      assert r == prefix + [DigitChar(n % radix)];
      assert r[..|r| - 1] == prefix;
      DivMod(n, radix);
      FromToRadix(n / radix, radix);
      DigitValueOfChar(n % radix);
    }
  }

  /** Two numbers render alike only if they are equal. */
  lemma ToRadixInjective(m: nat, n: nat, radix: nat)
    requires 2 <= radix <= 16
    requires ToRadix(m, radix) == ToRadix(n, radix)
    ensures m == n
  {
    FromToRadix(m, radix);
    FromToRadix(n, radix);
  }

  /** A leading zero does not change the value of a digit string. */
  lemma {:induction false} LeadingZero(s: string, radix: nat)
    requires 2 <= radix <= 16
    requires AllDigits(s, radix)
    ensures AllDigits("0" + s, radix)
    ensures FromRadix("0" + s, radix) == FromRadix(s, radix)
    decreases |s|
  {
    var z := "0" + s;
    assert forall i :: 0 < i < |z| ==> z[i] == s[i - 1];
    if |s| == 0 {
      assert z[..0] == [];
    } else {
      var init := s[..|s| - 1];
      assert z[..|z| - 1] == "0" + init;
      assert AllDigits(init, radix) by {
        assert forall i :: 0 <= i < |init| ==> init[i] == s[i];
      }
      LeadingZero(init, radix);
    }
  }

  /** `Number.prototype.toString(radix)` on an integral value. */
  function ToRadixString(n: int, radix: nat): (r: string)
    requires 2 <= radix <= 16
    ensures |r| > 0
    ensures r[0] == '-' <==> n < 0
    ensures n < 0 ==> IsNumeral(r[1..], radix)
    ensures n >= 0 ==> IsNumeral(r, radix)
  {
    if n < 0 then "-" + ToRadix(-n, radix) else ToRadix(n, radix)
  }

  /** Reads an optionally negative numeral; `None` for anything else. */
  function ParseRadixString(s: string, radix: nat): (r: Option<int>)
    requires 2 <= radix <= 16
    ensures r.Some? ==> |s| > 0
  {
    if |s| > 0 && s[0] == '-' && IsNumeral(s[1..], radix) then
      var magnitude: int := FromRadix(s[1..], radix);
      Some(-magnitude)
    else if IsNumeral(s, radix) then Some(FromRadix(s, radix))
    else None
  }

  /** The parser on a plain numeral and on a minus sign before one. */
  lemma ParseNumeral(digits: string, radix: nat)
    requires 2 <= radix <= 16
    requires IsNumeral(digits, radix)
    ensures ParseRadixString(digits, radix) == Some(FromRadix(digits, radix) as int)
    ensures ParseRadixString("-" + digits, radix) == Some(0 - FromRadix(digits, radix))
  {
    assert digits[0] != '-' by {
      assert DigitValue(digits[0]) >= 0;
    }
    assert ("-" + digits)[1..] == digits;
  }

  /** Rendering then parsing any integer gives it back. */
  lemma ParseToRadixString(n: int, radix: nat)
    requires 2 <= radix <= 16
    ensures ParseRadixString(ToRadixString(n, radix), radix) == Some(n)
  {
    var m: nat := if n < 0 then -n else n;
    var digits := ToRadix(m, radix);
    FromToRadix(m, radix);
    ParseNumeral(digits, radix);
  }

  /** `String.prototype.padStart(width, fill)` with a one-character fill. */
  function PadStart(s: string, width: nat, fill: char): (r: string)
    ensures |r| == if |s| >= width then |s| else width
    ensures r[|r| - |s|..] == s
    ensures forall i :: 0 <= i < |r| - |s| ==> r[i] == fill
  {
    if |s| >= width then s else seq(width - |s|, _ => fill) + s
  }

  /** `Math.round` on an exact value: the nearest integer, halves upwards. */
  function Round(x: real): (k: int)
    ensures x - 0.5 < k as real <= x + 0.5
  {
    (x + 0.5).Floor
  }

  /** `Round(x)` is the one integer within half a unit of `x`, taking the upper
      neighbour at an exact half. */
  lemma RoundIsNearest(x: real, k: int)
    ensures k == Round(x) <==> x - 0.5 < k as real <= x + 0.5
  {
  }
}
