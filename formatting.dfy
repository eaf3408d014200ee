/**
 * Decimal formatting of record ids with the "D6" format: at least six
 * digits, zero-padded on the left, a minus sign in front of negatives.
 * ParseDecimal is the reading back that the round-trip lemmas use.
 */
module Formatting {

  /** Minimum digit count of the "D6" format. */
  const IdDigits: nat := 6

  predicate IsDigit(c: char) { '0' <= c <= '9' }

  function DigitChar(d: nat): (c: char)
    requires d < 10
    ensures IsDigit(c) && (c as int) - ('0' as int) == d
  {
    ('0' as int + d) as char
  }

  /** The value of a digit character, the inverse of DigitChar. */
  function DigitValue(c: char): (d: nat)
    requires IsDigit(c)
    ensures d < 10 && DigitChar(d) == c
  {
    (c as int) - ('0' as int)
  }

  /** Every character of `s` is a decimal digit. */
  predicate AllDigits(s: string)
  {
    forall i :: 0 <= i < |s| ==> IsDigit(s[i])
  }

  /** The shortest decimal spelling of `n`, most significant digit first. */
  function Digits(n: nat): (s: string)
    ensures |s| >= 1
  {
    if n < 10 then [DigitChar(n)] else Digits(n / 10) + [DigitChar(n % 10)]
  }

  /** The spelling of a number uses digit characters only. */
  lemma {:induction false} DigitsAreDigits(n: nat)
    ensures AllDigits(Digits(n))
  {
    if n >= 10 {
      DigitsAreDigits(n / 10);
    }
  }

  /** A spelling of two or more digits does not start with '0'. */
  lemma {:induction false} DigitsNoLeadingZero(n: nat)
    ensures n >= 10 ==> Digits(n)[0] != '0'
  {
    if n >= 10 {
      DigitsNoLeadingZero(n / 10);
      assert Digits(n)[0] == Digits(n / 10)[0];
    }
  }

  /** Ten to the power `k`. */
  function Pow10(k: nat): (p: nat)
    ensures p >= 1
  {
    if k == 0 then 1 else 10 * Pow10(k - 1)
  }

  /** The spelling is the shortest one: it fits in `k` digits exactly when `n < 10^k`. */
  lemma {:induction false} DigitsLength(n: nat, k: nat)
    requires k >= 1
    ensures |Digits(n)| <= k <==> n < Pow10(k)
  {
    if n >= 10 {
      assert |Digits(n)| == |Digits(n / 10)| + 1;
      if k == 1 {
        assert Pow10(1) == 10;
      } else {
        DigitsLength(n / 10, k - 1);
        assert Pow10(k) == 10 * Pow10(k - 1);
      }
    } else {
      assert Pow10(k) == 10 * Pow10(k - 1);
    }
  }

  /** `count` zero digits. */
  function Zeros(count: nat): (s: string)
    ensures |s| == count
  {
    if count == 0 then [] else Zeros(count - 1) + ['0']
  }

  /** Every character of a run of zeros is '0'. */
  lemma {:induction false} ZerosAreZeros(count: nat)
    ensures forall i :: 0 <= i < count ==> Zeros(count)[i] == '0'
  {
    if count > 0 {
      ZerosAreZeros(count - 1);
    }
  }

  /** `s` padded on the left with zeros up to `width` characters. */
  function PadZeros(s: string, width: nat): (r: string)
    ensures |r| == if |s| < width then width else |s|
  {
    if |s| < width then Zeros(width - |s|) + s else s
  }

  /** Padding keeps `s` as the tail and puts only zeros before it. */
  lemma PadZerosShape(s: string, width: nat)
    ensures var r := PadZeros(s, width);
      && r[|r| - |s|..] == s
      && forall i :: 0 <= i < |r| - |s| ==> r[i] == '0'
  {
    if |s| < width {
      ZerosAreZeros(width - |s|);
      var r := PadZeros(s, width);
      assert r == Zeros(width - |s|) + s;
      assert r[|r| - |s|..] == s;
    }
  }

  /** The minus sign of a negative number, nothing otherwise. */
  function SignText(id: int): string
  {
    if id < 0 then "-" else ""
  }

  /** The absolute value. */
  function Magnitude(id: int): nat
  {
    if id < 0 then -id else id
  }

  /** The "D6" text of an id: its sign, then its digits padded to six. */
  function FormatD6(id: int): string
  {
    SignText(id) + PadZeros(Digits(Magnitude(id)), IdDigits)
  }

  /** The zero-padded digits of a number are all digits. */
  lemma PaddedDigits(n: nat)
    ensures AllDigits(PadZeros(Digits(n), IdDigits))
  {
    var d := Digits(n);
    var padded := PadZeros(d, IdDigits);
    DigitsAreDigits(n);
    PadZerosShape(d, IdDigits);
    forall i | 0 <= i < |padded|
      ensures IsDigit(padded[i])
    {
      if i >= |padded| - |d| {
        assert padded[i] == padded[|padded| - |d|..][i - (|padded| - |d|)];
      }
    }
  }

  /**
   * A non-negative id shows as digits only, at least six of them and more
   * only when the id needs more; a negative id shows a minus sign in front.
   */
  lemma FormatD6Shape(id: int)
    ensures id >= 0 ==> |FormatD6(id)| == if |Digits(id)| < IdDigits then IdDigits else |Digits(id)|
    ensures id >= 0 ==> AllDigits(FormatD6(id))
    ensures id < 0 ==> |FormatD6(id)| >= IdDigits + 1 && FormatD6(id)[0] == '-'
    ensures 0 <= id < Pow10(IdDigits) ==> |FormatD6(id)| == IdDigits
  {
    DigitsLength(Magnitude(id), IdDigits);
    var padded := PadZeros(Digits(Magnitude(id)), IdDigits);
    PaddedDigits(Magnitude(id));
    if id >= 0 {
      assert FormatD6(id) == padded;
    } else {
      assert FormatD6(id) == "-" + padded;
    }
  }

  /** The value of a string of decimal digits (leading zeros allowed). */
  function ParseDecimal(s: string): (n: nat)
    requires AllDigits(s)
  {
    if s == [] then 0
    else ParseDecimal(s[..|s| - 1]) * 10 + DigitValue(s[|s| - 1])
  }

  /** Reading back the digits of `n` gives `n`. */
  lemma {:induction false} ParseDigits(n: nat)
    ensures AllDigits(Digits(n)) && ParseDecimal(Digits(n)) == n
  {
    DigitsAreDigits(n);
    if n >= 10 {
      var s := Digits(n);
      assert s[..|s| - 1] == Digits(n / 10);
      ParseDigits(n / 10);
    }
  }

  /** A run of zeros reads as zero. */
  lemma {:induction false} ParseZeros(count: nat)
    ensures AllDigits(Zeros(count)) && ParseDecimal(Zeros(count)) == 0
  {
    var z := Zeros(count);
    assert AllDigits(z) by {
      ZerosAreZeros(count);
    }
    if count > 0 {
      assert z[..count - 1] == Zeros(count - 1) && z[count - 1] == '0';
      ParseZeros(count - 1);
      assert ParseDecimal(z) == ParseDecimal(Zeros(count - 1)) * 10 + DigitValue('0');
    }
  }

  /** Leading zeros do not change the value read. */
  lemma {:induction false} ParseIgnoresZeros(count: nat, s: string)
    requires AllDigits(s)
    ensures AllDigits(Zeros(count) + s) && ParseDecimal(Zeros(count) + s) == ParseDecimal(s)
  {
    var t := Zeros(count) + s;
    assert AllDigits(t) by {
      ZerosAreZeros(count);
    }
    if s == [] {
      assert t == Zeros(count);
      ParseZeros(count);
    } else {
      assert t[..|t| - 1] == Zeros(count) + s[..|s| - 1];
      ParseIgnoresZeros(count, s[..|s| - 1]);
    }
  }

  /** The "D6" text of a non-negative id reads back as the id; a negative one reads back after its sign. */
  lemma FormatD6RoundTrip(id: int)
    ensures id >= 0 ==> AllDigits(FormatD6(id)) && ParseDecimal(FormatD6(id)) == id
    ensures id < 0 ==> FormatD6(id)[0] == '-' && AllDigits(FormatD6(id)[1..]) && ParseDecimal(FormatD6(id)[1..]) == -id
  {
    var n := Magnitude(id);
    var d := Digits(n);
    var padded := PadZeros(d, IdDigits);
    PaddedDigits(n);
    assert ParseDecimal(padded) == n by {
      ParseDigits(n);
      if |d| < IdDigits {
        ParseIgnoresZeros(IdDigits - |d|, d);
      }
    }
    if id < 0 {
      assert FormatD6(id) == "-" + padded;
      assert FormatD6(id)[1..] == padded;
    } else {
      assert FormatD6(id) == "" + padded;
      assert "" + padded == padded;
    }
  }

  /** Id 7 is shown as "000007". */
  lemma FormatD6Example()
    ensures FormatD6(7) == "000007"
  {
    assert Digits(7) == "7";
    assert Zeros(5) == "00000";
    assert FormatD6(7) == "" + (Zeros(5) + "7");
  }
}
