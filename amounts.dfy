/**
 * Printed amounts and `as_number`: the numerals a bill prints (digit groups separated by
 * commas, an optional minus sign and fraction digits) read back as the number they show.
 */
module Amounts {
  import opened Wrappers
  import opened Text
  import opened Conversions

  /** The decimal numeral of `n`, without leading zeros. */
  function Numeral(n: nat): (r: string)
    ensures IsDigits(r) && DigitsValue(r) == n
  {
    if n < 10 then [DigitChar(n)]
    else
      var r := Numeral(n / 10) + [DigitChar(n % 10)];
      assert r[..|r| - 1] == Numeral(n / 10);
      r
  }

  /** Digits with a comma before each group of three counted from the right, as in "1,234,567". */
  function GroupDigits(ds: string): string
    decreases |ds|
  {
    if |ds| <= 3 then ds else GroupDigits(ds[..|ds| - 3]) + "," + ds[|ds| - 3..]
  }

  lemma NoCommaInDigits(ds: string)
    requires OnlyDigits(ds)
    ensures ',' !in ds
  {
    assert !IsDigit(',');
  }

  /** Taking the commas out of grouped digits gives the digits back. */
  lemma {:induction false} GroupDigitsWithoutCommas(ds: string)
    requires OnlyDigits(ds)
    ensures RemoveCommas(GroupDigits(ds)) == ds
    decreases |ds|
  {
    NoCommaInDigits(ds);
    if |ds| <= 3 {
      RemoveCommasNone(ds);
    } else {
      var hi, lo := ds[..|ds| - 3], ds[|ds| - 3..];
      NoCommaInDigits(lo);
      GroupDigitsWithoutCommas(hi);
      RemoveCommasAppend(GroupDigits(hi) + ",", lo);
      RemoveCommasAppend(GroupDigits(hi), ",");
      RemoveCommasNone(lo);
      assert RemoveCommas(",") == "" by {
        assert ","[1..] == "";
      }
      assert hi + lo == ds;
    }
  }

  lemma RemoveCommasAfter(sign: string, g: string)
    requires ',' !in sign
    ensures RemoveCommas(sign + g) == sign + RemoveCommas(g)
  {
    RemoveCommasAppend(sign, g);
    RemoveCommasNone(sign);
  }

  lemma RemoveCommasBefore(g: string, tail: string)
    requires ',' !in tail
    ensures RemoveCommas(g + tail) == RemoveCommas(g) + tail
  {
    RemoveCommasAppend(g, tail);
    RemoveCommasNone(tail);
  }

  /** How an amount is printed on a bill: a minus sign when negative, the whole part in groups of three, the fraction, as in "-1,234.50". */
  function AmountText(negative: bool, whole: string, fraction: string): string {
    SignText(negative) + GroupDigits(whole) + FractionText(fraction)
  }

  lemma FractionTextNoComma(fraction: string)
    requires OnlyDigits(fraction)
    ensures ',' !in FractionText(fraction)
  {
    var tail := FractionText(fraction);
    forall i | 0 <= i < |tail| ensures tail[i] != ',' {
      if i > 0 { assert tail[i] == fraction[i - 1]; }
    }
  }

  lemma CommasAround(sign: string, g: string, tail: string, whole: string)
    requires ',' !in sign && ',' !in tail && RemoveCommas(g) == whole
    ensures RemoveCommas(sign + g + tail) == sign + (whole + tail)
  {
    RemoveCommasBefore(sign + g, tail);
    RemoveCommasAfter(sign, g);
    assert RemoveCommas(sign + g + tail) == sign + whole + tail;
    assert sign + whole + tail == sign + (whole + tail);
  }

  lemma AmountTextWithoutCommas(negative: bool, whole: string, fraction: string)
    requires OnlyDigits(whole) && OnlyDigits(fraction)
    ensures RemoveCommas(AmountText(negative, whole, fraction))
         == SignText(negative) + (whole + FractionText(fraction))
  {
    FractionTextNoComma(fraction);
    GroupDigitsWithoutCommas(whole);
    assert ',' !in SignText(negative);
    CommasAround(SignText(negative), GroupDigits(whole), FractionText(fraction), whole);
  }

  /** A printed amount reads back as the value it shows: `as_number` inverts the printing. */
  lemma AsNumberOfAmount(negative: bool, whole: string, fraction: string)
    requires IsDigits(whole) && OnlyDigits(fraction)
    ensures AsNumber(AmountText(negative, whole, fraction))
         == Some(Signed(negative, DigitsValue(whole) as real + Fraction(fraction)))
  {
    AmountTextWithoutCommas(negative, whole, fraction);
    AsNumberOfDigits(AmountText(negative, whole, fraction), negative, whole, fraction);
  }

  lemma DropEmptyFraction(read: string -> Option<real>, text: string, negative: bool, ds: string)
    requires read(text) == Some(Signed(negative, DigitsValue(ds) as real + Fraction("")))
    ensures read(text) == Some(Signed(negative, DigitsValue(ds) as real))
  {
  }

  /** Digits with no fraction read back as the value of the digits. */
  lemma AsNumberOfWholeDigits(negative: bool, ds: string)
    requires IsDigits(ds)
    ensures AsNumber(AmountText(negative, ds, "")) == Some(Signed(negative, DigitsValue(ds) as real))
  {
    AsNumberOfAmount(negative, ds, "");
    DropEmptyFraction(AsNumber, AmountText(negative, ds, ""), negative, ds);
  }

  /** Every whole number, printed with digit groups, reads back as itself. */
  lemma AsNumberOfNumeral(negative: bool, n: nat)
    ensures AsNumber(AmountText(negative, Numeral(n), "")) == Some(Signed(negative, n as real))
  {
    AsNumberOfWholeDigits(negative, Numeral(n));
  }

  lemma GroupDigitsExample()
    ensures GroupDigits("1234") == "1,234"
  {
    assert "1234"[..1] == "1" && "1234"[1..] == "234";
  }

  lemma DigitsValueExample()
    ensures DigitsValue("1234") == 1234
  {
    assert "1234"[..3] == "123" && "123"[..2] == "12" && "12"[..1] == "1" && "1"[..0] == "";
  }

  lemma FractionExample()
    ensures Fraction("50") == 0.5
  {
    assert "50"[1..] == "0" && "0"[1..] == "";
  }

  /** 1234.5 is printed as "1,234.50". */
  lemma AmountTextExample()
    ensures AmountText(false, "1234", "50") == "1,234.50"
  {
    GroupDigitsExample();
  }

  /** The text "1,234.50" reads back as 1234.5. */
  lemma AsNumberExample()
    ensures AsNumber(AmountText(false, "1234", "50")) == Some(1234.5)
    ensures AsNumber("1,234.50") == Some(1234.5)
  {
    AmountTextExample();
    DigitsValueExample();
    FractionExample();
    AsNumberOfAmount(false, "1234", "50");
    assert Signed(false, DigitsValue("1234") as real + Fraction("50")) == 1234.5;
  }

  /** "" and "abc" are not numbers. */
  lemma AsNumberNonNumbers()
    ensures AsNumber("") == None
    ensures AsNumber("abc") == None
  {
    AsNumberNeedsDigit("");
    assert !IsDigit("abc"[0]) && !IsDigit("abc"[1]) && !IsDigit("abc"[2]);
    AsNumberNeedsDigit("abc");
  }
}
