/**
 * Decimal text of integers as WriteInteger produces it, with a parser as
 * its independent partner and the length bound that keeps the writer's
 * 32-byte scratch memory sufficient.
 */
module Decimal {
  import opened Wrappers
  import opened Blittable

  const Zero: byte := 48   // '0'
  const Minus: byte := 45  // '-'

  predicate IsDigit(b: byte)
  {
    Zero <= b <= Zero + 9
  }

  /** The decimal digits of `n`, most significant first; no digits for 0. */
  function Significant(n: nat): (r: seq<byte>)
    ensures forall i | 0 <= i < |r| :: IsDigit(r[i])
    ensures n > 0 <==> |r| > 0
    ensures n > 0 ==> r[0] != Zero
    decreases n
  {
    if n == 0 then [] else Significant(n / 10) + [Zero + n % 10]
  }

  /** The JSON text of an integer: "0", or an optional '-' and the significant digits. */
  function IntegerText(i: int): seq<byte>
  {
    if i == 0 then [Zero]
    else if i < 0 then [Minus] + Significant(-i)
    else Significant(i)
  }

  /** The value of a run of decimal digits, most significant first. */
  function DigitsValue(s: seq<byte>): nat
    requires forall i | 0 <= i < |s| :: IsDigit(s[i])
  {
    if s == [] then 0
    else
      assert IsDigit(s[|s| - 1]);
      DigitsValue(s[..|s| - 1]) * 10 + (s[|s| - 1] - Zero)
  }

  predicate AllDigits(s: seq<byte>)
  {
    forall i | 0 <= i < |s| :: IsDigit(s[i])
  }

  /** Reads a JSON integer: an optional '-' followed by at least one digit. */
  function ParseInteger(t: seq<byte>): Option<int>
  {
    if t == [] then None
    else if t[0] == Minus then
      if |t| >= 2 && AllDigits(t[1..]) then
        var magnitude: int := DigitsValue(t[1..]);
        Some(-magnitude)
      else None
    else if AllDigits(t) then Some(DigitsValue(t))
    else None
  }

  lemma {:induction false} DigitsValueSignificant(n: nat)
    ensures DigitsValue(Significant(n)) == n
    decreases n
  {
    if n > 0 {
      var s := Significant(n);
      assert s[..|s| - 1] == Significant(n / 10);
      DigitsValueSignificant(n / 10);
    }
  }

  /** Every integer's text reads back as that integer. */
  lemma ParseIntegerText(i: int)
    ensures ParseInteger(IntegerText(i)) == Some(i)
  {
    var t := IntegerText(i);
    if i == 0 {
      assert DigitsValue(t) == DigitsValue([]) * 10 + 0;
    } else if i < 0 {
      assert t[1..] == Significant(-i);
      DigitsValueSignificant(-i);
    } else {
      DigitsValueSignificant(i);
    }
  }

  /** The text is canonical: a leading zero only for 0 itself, and a '-' only for negatives. */
  lemma IntegerTextCanonical(i: int)
    ensures |IntegerText(i)| > 0
    ensures IntegerText(i)[0] == Zero <==> i == 0
    ensures IntegerText(i)[0] == Minus <==> i < 0
    ensures i < 0 ==> IntegerText(i)[1] != Zero
  {
  }

  function Pow10(k: nat): nat
  {
    if k == 0 then 1 else 10 * Pow10(k - 1)
  }

  lemma {:induction false} SignificantLength(n: nat, k: nat)
    requires n < Pow10(k)
    ensures |Significant(n)| <= k
    decreases n
  {
    if n > 0 {
      assert k > 0;
      SignificantLength(n / 10, k - 1);
    }
  }

  lemma Pow10Nineteen()
    ensures Pow10(19) == 10000000000000000000
  {
    assert Pow10(4) == 10000;
    assert Pow10(8) == 100000000;
    assert Pow10(12) == 1000000000000;
    assert Pow10(16) == 10000000000000000;
  }

  /** A `long` has at most 19 digits, so its text (with the sign) fits in 20 bytes. */
  lemma IntegerTextLength(i: int)
    requires MinLong <= i <= MaxLong
    ensures |Significant(if i < 0 then -i else i)| <= 19
    ensures |IntegerText(i)| <= 20
  {
    Pow10Nineteen();
    SignificantLength(if i < 0 then -i else i, 19);
  }

  /** The bytes of `s` in reverse order. */
  function Reversed(s: seq<byte>): (r: seq<byte>)
    ensures |r| == |s|
  {
    seq(|s|, i requires 0 <= i < |s| => s[|s| - 1 - i])
  }

  lemma ReversedSnoc(s: seq<byte>, b: byte)
    ensures Reversed(s + [b]) == [b] + Reversed(s)
  {
    var l := Reversed(s + [b]);
    var r := [b] + Reversed(s);
    assert forall i | 0 <= i < |l| :: l[i] == r[i];
  }

  lemma ReversedTwice(s: seq<byte>)
    ensures Reversed(Reversed(s)) == s
  {
  }
}
