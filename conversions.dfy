/**
 * The utility conversions of the extractor: `as_number`, which turns OCR text into a number
 * or `None` and never fails, and `strip_serial`, which drops a leading serial number from a
 * description.
 *
 * Numbers are exact reals. The accepted grammar is the plain decimal part of Python's
 * `float()`: surrounding whitespace (the narrower set `float()` trims, not the one of
 * `str.strip()`), an optional sign, digits, at most one decimal point and at least one digit.
 */
module Conversions {
  import opened Wrappers
  import opened Text

  /** `value.replace(",", "")`: every comma goes, every other character stays, in order. */
  function RemoveCommas(s: string): string {
    if s == [] then [] else (if s[0] == ',' then [] else [s[0]]) + RemoveCommas(s[1..])
  }

  /** No comma is left, and every other character occurs as often after `RemoveCommas` as before. */
  lemma {:induction false} RemoveCommasCount(s: string, c: char)
    ensures multiset(RemoveCommas(s))[c] == if c == ',' then 0 else multiset(s)[c]
    decreases |s|
  {
    if s != [] {
      RemoveCommasCount(s[1..], c);
      assert s == [s[0]] + s[1..];
    }
  }

  lemma {:induction false} RemoveCommasAppend(a: string, b: string)
    ensures RemoveCommas(a + b) == RemoveCommas(a) + RemoveCommas(b)
    decreases |a|
  {
    if a == [] {
      assert a + b == b;
    } else {
      assert (a + b)[0] == a[0] && (a + b)[1..] == a[1..] + b;
      RemoveCommasAppend(a[1..], b);
    }
  }

  lemma {:induction false} RemoveCommasNone(s: string)
    requires ',' !in s
    ensures RemoveCommas(s) == s
    decreases |s|
  {
    if s != [] {
      RemoveCommasNone(s[1..]);
    }
  }

  function DigitValue(c: char): nat {
    if IsDigit(c) then c as int - '0' as int else 0
  }

  function DigitChar(d: nat): char
    requires d < 10
  {
    ('0' as int + d) as char
  }

  /** True when every character is a digit (the empty string included). */
  predicate OnlyDigits(s: string) {
    forall i :: 0 <= i < |s| ==> IsDigit(s[i])
  }

  /** The value of a string of decimal digits, most significant first. */
  function DigitsValue(ds: string): nat {
    if ds == [] then 0 else DigitsValue(ds[..|ds| - 1]) * 10 + DigitValue(ds[|ds| - 1])
  }

  /** The value of the digits after a decimal point: "25" is 0.25. */
  function Fraction(ds: string): real {
    if ds == [] then 0.0 else (DigitValue(ds[0]) as real + Fraction(ds[1..])) / 10.0
  }

  function Signed(negative: bool, v: real): real {
    if negative then -v else v
  }

  /** Number of leading digits of `s`. */
  function DigitRun(s: string): (n: nat)
    ensures n <= |s| && OnlyDigits(s[..n])
    ensures n < |s| ==> !IsDigit(s[n])
  {
    if s == [] || !IsDigit(s[0]) then 0
    else
      var n := 1 + DigitRun(s[1..]);
      assert s[..n] == [s[0]] + s[1..][..n - 1];
      n
  }

  /** The text after an optional leading sign. */
  function Unsigned(s: string): string {
    if s != [] && (s[0] == '-' || s[0] == '+') then s[1..] else s
  }

  /** Parses digits with at most one decimal point and at least one digit. */
  function ParseUnsigned(body: string): Option<real> {
    var n := DigitRun(body);
    var rest := body[n..];
    if rest == [] then
      if n == 0 then None else Some(DigitsValue(body[..n]) as real)
    else if rest[0] != '.' || !OnlyDigits(rest[1..]) || (n == 0 && |rest| == 1) then None
    else Some(DigitsValue(body[..n]) as real + Fraction(rest[1..]))
  }

  /** Parses an optionally signed decimal numeral. */
  function ParseDecimal(s: string): Option<real> {
    match ParseUnsigned(Unsigned(s))
    case None => None
    case Some(v) => Some(Signed(s != [] && s[0] == '-', v))
  }

  /** The whitespace `float()` trims from ASCII text: tab through carriage return, and the space.
      The information separators U+001C to U+001F, which `str.strip()` removes, are not in it. */
  predicate IsNumberSpace(c: char) {
    9 <= c as int <= 13 || c == ' '
  }

  /** The trim `float()` applies to its argument: leading and trailing `IsNumberSpace` removed. */
  function NumberStrip(s: string): (r: string)
    ensures r == [] || (!IsNumberSpace(r[0]) && !IsNumberSpace(r[|r| - 1]))
    ensures s != [] && !IsNumberSpace(s[0]) ==> r != [] && r[0] == s[0]
    ensures s != [] && !IsNumberSpace(s[|s| - 1]) ==> r != [] && r[|r| - 1] == s[|s| - 1]
    decreases |s|
  {
    if s != [] && IsNumberSpace(s[0]) then NumberStrip(s[1..])
    else if s != [] && IsNumberSpace(s[|s| - 1]) then NumberStrip(s[..|s| - 1])
    else s
  }

  /** Trimming removes whitespace only: every other character keeps its count. */
  lemma {:induction false} NumberStripKeepsOthers(s: string, c: char)
    requires !IsNumberSpace(c)
    ensures multiset(NumberStrip(s))[c] == multiset(s)[c]
    decreases |s|
  {
    if s != [] && IsNumberSpace(s[0]) {
      NumberStripKeepsOthers(s[1..], c);
      assert s == [s[0]] + s[1..];
    } else if s != [] && IsNumberSpace(s[|s| - 1]) {
      NumberStripKeepsOthers(s[..|s| - 1], c);
      assert s == s[..|s| - 1] + [s[|s| - 1]];
    }
  }

  /** Python's `as_number`: `float(value.replace(",", ""))`, or `None` where `float` would raise. */
  function AsNumber(value: string): Option<real> {
    ParseDecimal(NumberStrip(RemoveCommas(value)))
  }

  predicate HasDigit(s: string) {
    exists i :: 0 <= i < |s| && IsDigit(s[i])
  }

  lemma ParseNeedsDigit(t: string)
    ensures ParseDecimal(t).Some? ==> HasDigit(t)
  {
    var body := Unsigned(t);
    var n := DigitRun(body);
    var rest := body[n..];
    if ParseUnsigned(body).Some? {
      var k := if n > 0 then 0 else 1;
      assert IsDigit(body[k]) by {
        if n == 0 {
          assert rest[1..][0] == body[1];
        }
      }
      if body != t {
        assert t[k + 1] == body[k];
      } else {
        assert t[k] == body[k];
      }
    }
  }

  lemma NoPointIn(x: string)
    requires OnlyDigits(x)
    ensures multiset(x)['.'] == 0
  {
    assert forall i :: 0 <= i < |x| ==> x[i] != '.';
    assert '.' !in x;
  }

  lemma PointsOfConcat(a: string, b: string)
    ensures multiset(a + b)['.'] == multiset(a)['.'] + multiset(b)['.']
  {
  }

  lemma NumberStripKeepsDigits(s: string)
    ensures HasDigit(NumberStrip(s)) ==> HasDigit(s)
  {
    var r := NumberStrip(s);
    if HasDigit(r) {
      var i :| 0 <= i < |r| && IsDigit(r[i]);
      NumberStripKeepsOthers(s, r[i]);
      assert r[i] in multiset(r);
      assert r[i] in multiset(s);
      var j :| 0 <= j < |s| && s[j] == r[i];
    }
  }

  lemma RemoveCommasKeepsDigits(s: string)
    ensures HasDigit(RemoveCommas(s)) ==> HasDigit(s)
  {
    var r := RemoveCommas(s);
    if HasDigit(r) {
      var i :| 0 <= i < |r| && IsDigit(r[i]);
      RemoveCommasCount(s, r[i]);
      assert r[i] in multiset(r);
      assert r[i] in multiset(s);
      var j :| 0 <= j < |s| && s[j] == r[i];
    }
  }

  /** Text without a single digit, such as "" or "abc", is not a number. */
  lemma AsNumberNeedsDigit(s: string)
    requires !HasDigit(s)
    ensures AsNumber(s) == None
  {
    RemoveCommasKeepsDigits(s);
    NumberStripKeepsDigits(RemoveCommas(s));
    ParseNeedsDigit(NumberStrip(RemoveCommas(s)));
  }

  lemma UnsignedAtMostOnePoint(body: string)
    ensures ParseUnsigned(body).Some? ==> multiset(body)['.'] <= 1
  {
    var n := DigitRun(body);
    var rest := body[n..];
    if ParseUnsigned(body).Some? {
      NoPointIn(body[..n]);
      assert body == body[..n] + rest;
      PointsOfConcat(body[..n], rest);
      if rest != [] {
        NoPointIn(rest[1..]);
        assert rest == [rest[0]] + rest[1..];
        PointsOfConcat([rest[0]], rest[1..]);
      }
    }
  }

  lemma ParseAtMostOnePoint(t: string)
    ensures ParseDecimal(t).Some? ==> multiset(t)['.'] <= 1
  {
    var body := Unsigned(t);
    UnsignedAtMostOnePoint(body);
    if body != t {
      assert t == [t[0]] + body;
      PointsOfConcat([t[0]], body);
    }
  }

  /** A second decimal point, as in "1.2.3", makes the text not a number. */
  lemma AsNumberRejectsSecondPoint(s: string)
    requires multiset(s)['.'] >= 2
    ensures AsNumber(s) == None
  {
    RemoveCommasCount(s, '.');
    NumberStripKeepsOthers(RemoveCommas(s), '.');
    ParseAtMostOnePoint(NumberStrip(RemoveCommas(s)));
  }

  /** Commas are ignored wherever they stand. */
  lemma AsNumberIgnoresComma(a: string, b: string)
    ensures AsNumber(a + "," + b) == AsNumber(a + b)
  {
    RemoveCommasAppend(a + ",", b);
    RemoveCommasAppend(a, ",");
    RemoveCommasAppend(a, b);
    assert RemoveCommas(",") == "" by {
      assert ","[1..] == "";
    }
    var x := RemoveCommas(a + "," + b);
    assert x == RemoveCommas(a + b);
  }

  /** Text that starts with an information separator (U+001C to U+001F) is not a number:
      `float()` does not trim those characters, although `str.strip()` does. */
  lemma AsNumberLeadingSeparator(c: char, s: string)
    requires 0x1C <= c as int <= 0x1F
    ensures AsNumber([c] + s) == None
  {
    var t := RemoveCommas([c] + s);
    assert ([c] + s)[1..] == s;
    assert t == [c] + RemoveCommas(s);
    var r := NumberStrip(t);
    assert r[0] == c;
    assert DigitRun(r) == 0;
  }

  /** The token ",\u001C5" keeps its separator once its comma is gone, so it is not a number. */
  lemma AsNumberSeparatorExample()
    ensures AsNumber([',', 28 as char, '5']) == None
  {
    AsNumberIgnoresComma("", [28 as char, '5']);
    assert "" + "," + [28 as char, '5'] == [',', 28 as char, '5'];
    assert "" + [28 as char, '5'] == [28 as char] + "5";
    AsNumberLeadingSeparator(28 as char, "5");
  }

  // ---------------------------------------------------------------------------------------
  // Numerals without commas read back as their value: the partner of AsNumber.

  lemma {:induction false} DigitRunOfDigits(d: string, rest: string)
    requires OnlyDigits(d) && (rest == [] || !IsDigit(rest[0]))
    ensures DigitRun(d + rest) == |d|
    decreases |d|
  {
    if d != [] {
      assert (d + rest)[1..] == d[1..] + rest;
      DigitRunOfDigits(d[1..], rest);
    }
  }

  lemma ParseUnsignedOfDigits(digits: string, tail: string, fraction: string)
    requires IsDigits(digits) && OnlyDigits(fraction)
    requires tail == FractionText(fraction)
    ensures ParseUnsigned(digits + tail) == Some(DigitsValue(digits) as real + Fraction(fraction))
  {
    var body := digits + tail;
    DigitRunOfDigits(digits, tail);
    assert body[..|digits|] == digits;
    assert body[|digits|..] == tail;
    if fraction != [] {
      assert tail[1..] == fraction;
    }
  }

  lemma ParseDecimalOfUnsigned(t: string, v: real)
    requires ParseUnsigned(Unsigned(t)) == Some(v)
    ensures ParseDecimal(t) == Some(Signed(t != [] && t[0] == '-', v))
  {
  }

  lemma DropSign(sign: string, s: string)
    requires |sign| == 1
    ensures (sign + s)[1..] == s
  {
  }

  lemma NumeralStrip(sign: string, digits: string, tail: string, fraction: string)
    requires sign == "" || sign == "-"
    requires IsDigits(digits) && OnlyDigits(fraction)
    requires tail == FractionText(fraction)
    ensures NumberStrip(sign + (digits + tail)) == sign + (digits + tail)
  {
    var t := sign + (digits + tail);
    assert t[|t| - 1] == (if fraction == [] then digits[|digits| - 1] else fraction[|fraction| - 1]);
    assert t[0] == (if sign == "-" then '-' else digits[0]);
  }

  lemma NumeralUnsigned(sign: string, body: string)
    requires sign == "" || sign == "-"
    requires body != [] && IsDigit(body[0])
    ensures Unsigned(sign + body) == body
  {
    if sign == "-" {
      DropSign(sign, body);
    } else {
      assert sign + body == body;
    }
  }

  lemma ParseDecimalOfSigned(sign: string, body: string, v: real)
    requires sign == "" || sign == "-"
    requires body != [] && IsDigit(body[0])
    requires ParseUnsigned(body) == Some(v)
    ensures ParseDecimal(sign + body) == Some(Signed(sign == "-", v))
  {
    var t := sign + body;
    NumeralUnsigned(sign, body);
    assert (t != [] && t[0] == '-') == (sign == "-");
    ParseDecimalOfUnsigned(t, v);
  }

  /** A minus sign for a negative number, nothing otherwise. */
  function SignText(negative: bool): string {
    if negative then "-" else ""
  }

  /** A decimal point and the fraction digits, or nothing when there are none. */
  function FractionText(fraction: string): string {
    if fraction == [] then "" else "." + fraction
  }

  lemma AsNumberVia(s: string, t: string)
    requires RemoveCommas(s) == t && NumberStrip(t) == t
    ensures AsNumber(s) == ParseDecimal(t)
  {
  }

  lemma AsNumberOfParsed(s: string, negative: bool, digits: string, fraction: string, v: real)
    requires IsDigits(digits) && OnlyDigits(fraction)
    requires RemoveCommas(s) == SignText(negative) + (digits + FractionText(fraction))
    requires ParseUnsigned(digits + FractionText(fraction)) == Some(v)
    ensures AsNumber(s) == Some(Signed(negative, v))
  {
    var sign := SignText(negative);
    var tail := FractionText(fraction);
    var body := digits + tail;
    assert body[0] == digits[0];
    ParseDecimalOfSigned(sign, body, v);
    assert (sign == "-") == negative by {
      assert |sign| == (if negative then 1 else 0);
    }
    NumeralStrip(sign, digits, tail, fraction);
    AsNumberVia(s, sign + body);
  }

  /** Text that reads as a sign, digits and a fraction once its commas are gone is that number. */
  lemma AsNumberOfDigits(s: string, negative: bool, digits: string, fraction: string)
    requires IsDigits(digits) && OnlyDigits(fraction)
    requires RemoveCommas(s) == SignText(negative) + (digits + FractionText(fraction))
    ensures AsNumber(s) == Some(Signed(negative, DigitsValue(digits) as real + Fraction(fraction)))
  {
    ParseUnsignedOfDigits(digits, FractionText(fraction), fraction);
    AsNumberOfParsed(s, negative, digits, fraction, DigitsValue(digits) as real + Fraction(fraction));
  }

  // ---------------------------------------------------------------------------------------
  // strip_serial

  /** Python's `strip_serial`: when the first word is all digits, the remaining words joined by
      single spaces; otherwise the description unchanged. */
  function StripSerial(desc: string): string {
    var parts := SplitWords(desc);
    if parts != [] && IsDigits(parts[0]) then Join(" ", parts[1..]) else desc
  }

  /** With a leading serial, the result holds the other words, joined by single spaces; otherwise the description is unchanged. */
  lemma StripSerialWords(desc: string)
    ensures var words := SplitWords(desc);
      if words != [] && IsDigits(words[0])
      then SplitWords(StripSerial(desc)) == words[1..] && StripSerial(desc) == Join(" ", words[1..])
      else StripSerial(desc) == desc
  {
    var parts := SplitWords(desc);
    if parts != [] && IsDigits(parts[0]) {
      SplitJoin(parts[1..]);
    }
  }

  /** A leading serial number is dropped from words joined by spaces. */
  lemma StripSerialDropsSerial(serial: string, words: seq<string>)
    requires IsDigits(serial)
    requires AllWords(words)
    ensures StripSerial(Join(" ", [serial] + words)) == Join(" ", words)
  {
    var all := [serial] + words;
    assert forall i :: 0 <= i < |serial| ==> !IsSpace(serial[i]) by {
      forall i | 0 <= i < |serial| ensures !IsSpace(serial[i]) {
        assert IsDigit(serial[i]);
      }
    }
    SplitJoin(all);
    assert all[1..] == words;
  }

  lemma FirstWordNotSerial(desc: string, first: string, words: seq<string>)
    requires SplitWords(desc) == [first] + words && !IsDigits(first)
    ensures StripSerial(desc) == desc
  {
    assert SplitWords(desc)[0] == first;
  }

  /** A description whose first word is not a number is left as it is. */
  lemma StripSerialKeepsText(first: string, words: seq<string>)
    requires IsWord(first) && !IsDigits(first)
    requires AllWords(words)
    ensures StripSerial(Join(" ", [first] + words)) == Join(" ", [first] + words)
  {
    var desc := Join(" ", [first] + words);
    AllWordsCons(first, words);
    SplitJoin([first] + words);
    FirstWordNotSerial(desc, first, words);
  }
}
