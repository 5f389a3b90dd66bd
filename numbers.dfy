/**
 Fixed-width integer types of the BSON value model and the plain decimal
 text that Go's `fmt` verbs `%d` and `%v` print for integers, together with
 the zero-padded form that Go's time formatter uses for date fields.
 */
module Numbers {

  newtype Byte = x: int | 0 <= x < 0x100
  newtype Int32 = x: int | -0x8000_0000 <= x < 0x8000_0000
  newtype Int64 = x: int | -0x8000_0000_0000_0000 <= x < 0x8000_0000_0000_0000
  newtype UInt32 = x: int | 0 <= x < 0x1_0000_0000

  predicate IsDigit(c: char) {
    '0' <= c <= '9'
  }

  function DigitChar(d: nat): (c: char)
    requires d < 10
    ensures IsDigit(c) && DigitValue(c) == d
  {
    ('0' as int + d) as char
  }

  function DigitValue(c: char): nat
    requires IsDigit(c)
  {
    c as int - '0' as int
  }

  predicate AllDigits(s: string) {
    forall i :: 0 <= i < |s| ==> IsDigit(s[i])
  }

  /** Decimal text as Go prints a non-negative integer: digits only, no leading zero except in "0". */
  predicate Canonical(s: string) {
    |s| > 0 && AllDigits(s) && (s[0] == '0' ==> |s| == 1)
  }

  /** Decimal text of a natural number, most significant digit first. */
  function NatText(n: nat): (r: string)
    ensures Canonical(r)
    ensures n < 10 <==> |r| == 1
    decreases n
  {
    if n < 10 then [DigitChar(n)] else NatText(n / 10) + [DigitChar(n % 10)]
  }

  /** The value a string of decimal digits denotes. */
  function ParseNat(s: string): nat
    requires AllDigits(s)
  {
    if s == [] then 0 else ParseNat(s[..|s| - 1]) * 10 + DigitValue(s[|s| - 1])
  }

  /** Reading the decimal text of `n` back gives `n`. */
  lemma {:induction false} ParseNatText(n: nat)
    ensures ParseNat(NatText(n)) == n
    decreases n
  {
    if n >= 10 {
      var r := NatText(n);
      assert r[..|r| - 1] == NatText(n / 10);
      ParseNatText(n / 10);
    }
  }

  lemma {:induction false} ParseNatPositive(s: string)
    requires AllDigits(s) && |s| > 0 && s[0] != '0'
    ensures ParseNat(s) > 0
    decreases |s|
  {
    if |s| > 1 {
      ParseNatPositive(s[..|s| - 1]);
    }
  }

  /** Every canonical digit string is the decimal text of exactly the number it denotes. */
  lemma {:induction false} NatTextParse(s: string)
    requires Canonical(s)
    ensures NatText(ParseNat(s)) == s
    decreases |s|
  {
    if |s| > 1 {
      var p := s[..|s| - 1];
      assert Canonical(p);
      ParseNatPositive(p);
      NatTextParse(p);
      var n := ParseNat(s);
      assert n / 10 == ParseNat(p) && n % 10 == DigitValue(s[|s| - 1]);
      assert s == p + [s[|s| - 1]];
    }
  }

  /** Decimal text of a signed integer, as `%d` and `%v` print it: a '-' exactly for negatives, then the digits of the magnitude. */
  function IntText(x: int): (r: string)
    ensures |r| > 0 && (r[0] == '-' <==> x < 0)
  {
    if x < 0 then "-" + NatText(-x) else NatText(x)
  }

  /** Text Go's `%d`/`%v` produce for an integer: canonical digits, optionally after one '-' (never "-0"). */
  predicate SignedCanonical(s: string) {
    Canonical(s) || (|s| > 1 && s[0] == '-' && Canonical(s[1..]) && s[1] != '0')
  }

  function ParseInt(s: string): int
    requires SignedCanonical(s)
  {
    if |s| > 0 && s[0] == '-' then -(ParseNat(s[1..]) as int) else ParseNat(s)
  }

  /** IntText is injective and yields exactly the signed canonical texts. */
  lemma IntTextRoundTrip(x: int)
    ensures SignedCanonical(IntText(x))
    ensures ParseInt(IntText(x)) == x
  {
    if x < 0 {
      var r := IntText(x);
      assert r[1..] == NatText(-x);
      ParseNatText(-x);
    } else {
      ParseNatText(x);
    }
  }

  lemma IntTextParse(s: string)
    requires SignedCanonical(s)
    ensures IntText(ParseInt(s)) == s
  {
    if |s| > 0 && s[0] == '-' {
      NatTextParse(s[1..]);
      ParseNatPositive(s[1..]);
      assert s == "-" + s[1..];
    } else {
      NatTextParse(s);
    }
  }

  /** `s` preceded by as many '0' as make it at least `width` long. */
  function ZeroPad(s: string, width: nat): (r: string)
    ensures |r| == if |s| >= width then |s| else width
    ensures (AllDigits(s) ==> AllDigits(r))
    decreases width - |s|
  {
    if |s| >= width then s else ZeroPad("0" + s, width)
  }

  lemma {:induction false} ParseNatLeadingZero(s: string)
    requires AllDigits(s)
    ensures AllDigits("0" + s) && ParseNat("0" + s) == ParseNat(s)
    decreases |s|
  {
    if s != [] {
      var t := "0" + s;
      assert t[..|t| - 1] == "0" + s[..|s| - 1];
      ParseNatLeadingZero(s[..|s| - 1]);
    }
  }

  /** Zero padding does not change the number a digit string denotes. */
  lemma {:induction false} ParseZeroPad(s: string, width: nat)
    requires AllDigits(s)
    ensures ParseNat(ZeroPad(s, width)) == ParseNat(s)
    decreases width - |s|
  {
    if |s| < width {
      ParseNatLeadingZero(s);
      ParseZeroPad("0" + s, width);
    }
  }

  /**
   The text Go's time formatter writes for a numeric field of at least
   `width` digits: a '-' for a negative value, then the magnitude zero-padded.
   */
  function PaddedInt(x: int, width: nat): string {
    (if x < 0 then "-" else "") + ZeroPad(NatText(if x < 0 then -x else x), width)
  }

  /** A non-negative value below 10^width is written in exactly `width` digits that read back as it. */
  lemma PaddedNat(n: nat, width: nat)
    requires |NatText(n)| <= width
    ensures |PaddedInt(n, width)| == width && AllDigits(PaddedInt(n, width))
    ensures ParseNat(PaddedInt(n, width)) == n
  {
    assert PaddedInt(n, width) == ZeroPad(NatText(n), width);
    ParseZeroPad(NatText(n), width);
    ParseNatText(n);
  }

  /** A number below 100 (below 10000) has at most two (four) decimal digits: the widths used in dates. */
  lemma NatTextWidth(n: nat)
    ensures n < 100 ==> |NatText(n)| <= 2
    ensures n < 10000 ==> |NatText(n)| <= 4
  {
    if n >= 10 {
      assert |NatText(n)| == |NatText(n / 10)| + 1;
      if n >= 100 {
        assert |NatText(n / 10)| == |NatText(n / 10 / 10)| + 1;
        if n >= 1000 {
          assert |NatText(n / 10 / 10)| == |NatText(n / 10 / 10 / 10)| + 1;
        }
      }
    }
  }
}
