/**
 * The part of Go's fmt package that the core uses: printing a non-negative
 * integer in base 10 (%d) or upper-case base 16 (%X), left-padded to a
 * minimum width with spaces (%3d) or zeros (%03d, %04X), together with a
 * parser that reads such digits back.
 */
module Format {

  /** The digit characters fmt prints; %X uses the upper-case letters. */
  const DigitChars: string := "0123456789ABCDEF"

  predicate IsBase(base: nat) {
    2 <= base <= 16
  }

  function DigitChar(d: nat): char
    requires d < 16
  {
    DigitChars[d]
  }

  /** The value of a digit character; 0 for a character that is no digit. */
  function DigitValue(c: char): nat {
    if '0' <= c <= '9' then c as int - '0' as int
    else if 'A' <= c <= 'F' then c as int - 'A' as int + 10
    else 0
  }

  /** `c` is one of the first `base` digit characters. */
  predicate IsDigit(c: char, base: nat)
    requires IsBase(base)
  {
    (('0' <= c <= '9') || ('A' <= c <= 'F')) && DigitValue(c) < base
  }

  predicate AllDigits(s: string, base: nat)
    requires IsBase(base)
  {
    forall i | 0 <= i < |s| :: IsDigit(s[i], base)
  }

  function Pow(b: nat, k: nat): nat {
    if k == 0 then 1 else b * Pow(b, k - 1)
  }

  /** The shortest rendering of `n` in `base`, most significant digit first ("0" for zero). */
  function Digits(n: nat, base: nat): string
    requires IsBase(base)
    decreases n
  {
    if n < base then [DigitChar(n)] else Digits(n / base, base) + [DigitChar(n % base)]
  }

  /** The width flag of a verb: `s` preceded by as many `fill` characters as bring it to `width`. */
  function PadLeft(s: string, width: nat, fill: char): (r: string)
    ensures |r| == if |s| < width then width else |s|
    ensures r[|r| - |s|..] == s
    ensures forall i | 0 <= i < |r| - |s| :: r[i] == fill
  {
    if |s| < width then seq(width - |s|, _ => fill) + s else s
  }

  /** Reads a string of digits in `base` as a number. */
  function Parse(s: string, base: nat): nat {
    if s == [] then 0 else Parse(s[..|s| - 1], base) * base + DigitValue(s[|s| - 1])
  }

  /** Drops the spaces that %3d puts in front of a short number. */
  function TrimSpaces(s: string): (r: string)
    ensures |r| <= |s| && r == s[|s| - |r|..]
    ensures forall i | 0 <= i < |s| - |r| :: s[i] == ' '
    ensures r != [] ==> r[0] != ' '
  {
    if s != [] && s[0] == ' ' then TrimSpaces(s[1..]) else s
  }

  lemma DigitRoundTrip(d: nat, base: nat)
    requires IsBase(base) && d < base
    ensures IsDigit(DigitChar(d), base) && DigitValue(DigitChar(d)) == d
  {
  }

  /** Quotient and remainder of a division by a base, named so that the solver need not divide. */
  lemma DivMod(n: nat, base: nat) returns (q: nat, r: nat)
    requires IsBase(base) && base <= n
    ensures q == n / base && r == n % base && r < base && q < n
    ensures n == q * base + r
  {
    q, r := n / base, n % base;
  }

  /** Parsing what Digits prints gives the number back. */
  lemma {:induction false} ParseDigits(n: nat, base: nat)
    requires IsBase(base)
    ensures AllDigits(Digits(n, base), base)
    ensures Parse(Digits(n, base), base) == n
  {
    if n < base {
      DigitRoundTrip(n, base);
      assert Digits(n, base)[..0] == [];
    } else {
      var q, r := DivMod(n, base);
      var s := Digits(n, base);
      ParseDigits(q, base);
      DigitRoundTrip(r, base);
      assert s == Digits(q, base) + [DigitChar(r)];
      assert s[..|s| - 1] == Digits(q, base);
    }
  }

  lemma {:induction false} PowAtLeastBase(b: nat, k: nat)
    requires 1 <= b && 1 <= k
    ensures b <= Pow(b, k)
  {
    if k > 1 {
      PowAtLeastBase(b, k - 1);
    }
  }

  lemma DivBelow(n: nat, b: nat, p: nat)
    requires 1 <= b
    ensures n / b < p <==> n < b * p
  {
    var q, r := n / b, n % b;
    assert n == b * q + r && 0 <= r < b;
    if q < p {
      assert q + 1 <= p;
      assert b * (q + 1) <= b * p;
    } else {
      assert b * p <= b * q;
    }
  }

  /** Digits(n) fits in `k` characters exactly when n < base^k. */
  lemma {:induction false} DigitsLength(n: nat, base: nat, k: nat)
    requires IsBase(base) && 1 <= k
    ensures |Digits(n, base)| <= k <==> n < Pow(base, k)
    decreases n
  {
    PowAtLeastBase(base, k);
    if n >= base {
      var q, _ := DivMod(n, base);
      assert |Digits(n, base)| == |Digits(q, base)| + 1;
      if k == 1 {
        assert |Digits(q, base)| >= 1;
        assert Pow(base, k) == base;
      } else {
        DigitsLength(q, base, k - 1);
        DivBelow(n, base, Pow(base, k - 1));
        assert Pow(base, k) == base * Pow(base, k - 1);
      }
    }
  }

  lemma {:induction false} ParseLeadingZero(s: string, base: nat)
    ensures Parse(['0'] + s, base) == Parse(s, base)
    decreases |s|
  {
    if s != [] {
      var t := ['0'] + s;
      assert t[..|t| - 1] == ['0'] + s[..|s| - 1];
      ParseLeadingZero(s[..|s| - 1], base);
    } else {
      assert (['0'] + s)[..0] == [];
    }
  }

  lemma {:induction false} ParseLeadingZeros(k: nat, s: string, base: nat)
    ensures Parse(seq(k, _ => '0') + s, base) == Parse(s, base)
  {
    if k == 0 {
      assert seq(k, _ => '0') + s == s;
    } else {
      var z: string := seq(k, _ => '0');
      assert z + s == ['0'] + (seq(k - 1, _ => '0') + s);
      ParseLeadingZero(seq(k - 1, _ => '0') + s, base);
      ParseLeadingZeros(k - 1, s, base);
    }
  }

  /**
   * A zero-padded verb (%03d, %04X) prints exactly `width` digits when the
   * number is below base^width, and they parse back to the number.
   */
  lemma ZeroPaddedRoundTrip(n: nat, base: nat, width: nat)
    requires IsBase(base) && 1 <= width && n < Pow(base, width)
    ensures |PadLeft(Digits(n, base), width, '0')| == width
    ensures AllDigits(PadLeft(Digits(n, base), width, '0'), base)
    ensures Parse(PadLeft(Digits(n, base), width, '0'), base) == n
  {
    var d := Digits(n, base);
    DigitsLength(n, base, width);
    ParseDigits(n, base);
    var z: string := seq(width - |d|, _ => '0');
    assert PadLeft(d, width, '0') == z + d;
    ParseLeadingZeros(width - |d|, d, base);
    DigitRoundTrip(0, base);
  }

  /** A space-padded verb (%3d) prints spaces, then the digits, which trimming recovers. */
  lemma {:induction false} TrimSpacePadding(d: string, width: nat)
    requires d != [] && d[0] != ' '
    ensures TrimSpaces(PadLeft(d, width, ' ')) == d
    decreases width
  {
    if |d| < width {
      var p := PadLeft(d, width, ' ');
      assert p[0] == ' ';
      if |d| + 1 < width {
        assert p[1..] == PadLeft(d, width - 1, ' ');
        TrimSpacePadding(d, width - 1);
      } else {
        assert p[1..] == d;
      }
    }
  }
}
