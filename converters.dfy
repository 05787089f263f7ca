/** The converter callbacks both versions of the scraper hand to the field
    reader, each turning the text of one element into the value of one record
    field. */
module Converters {
  import opened Text
  import opened JsValues

  /** `result.includes(word) ? true : false`: `isAuction` tests the bid-count
      title for "Bud", `auctionEnded` the heading for "Avslutad". */
  function IncludesFlag(word: string, text: string): (v: Value)
    ensures v.Bool? && (v.b <==> Contains(text, word))
  {
    if Contains(text, word) then Bool(true) else Bool(false)
  }

  /** `highestBid` and `buyNowPrice`: `Number(result.replace(/[^0-9.]/g, ""))`. */
  function Price(text: string): (v: Value)
    ensures v.Num?
    ensures AllDigits(KeepNumeric(text)) ==> v == Num(Int(DigitValue(KeepNumeric(text))))
  {
    Num(ToNumber(KeepNumeric(text)))
  }

  /** `timeLeft`: `result != "Avslutad" ? result : 0`. */
  function TimeLeft(text: string): (v: Value)
    ensures v == Num(Int(0)) <==> text == "Avslutad"
    ensures text != "Avslutad" ==> v == Str(text)
  {
    if text != "Avslutad" then Str(text) else Num(Int(0))
  }

  /** `endTime`: `result.replace("Avslutas ", "")`, which drops the first occurrence only. */
  function EndTime(text: string): (v: Value)
    ensures v.Str? && |v.s| <= |text|
    ensures !Contains(text, "Avslutas ") ==> v == Str(text)
    ensures Contains(text, "Avslutas ") ==>
      exists i: nat | OccursAt(text, "Avslutas ", i) ::
        (forall j: nat | j < i :: !OccursAt(text, "Avslutas ", j)) && v.s == text[..i] + text[i + 9..]
  {
    Str(RemoveFirst(text, "Avslutas "))
  }

  /** A price rendered as a decimal numeral followed by any text without digits
      or points (a currency suffix such as " kr") reads back as that number. */
  lemma PriceReadsRenderedAmount(n: nat, suffix: string)
    requires forall i | 0 <= i < |suffix| :: !IsNumericChar(suffix[i])
    ensures Price(DecimalString(n) + suffix) == Num(Int(n))
  {
    KeepNumericAppend(DecimalString(n), suffix);
    NothingKeptFromNonNumeric(suffix);
    KeepNumericFixesNumeric(DecimalString(n));
    assert KeepNumeric(DecimalString(n) + suffix) == DecimalString(n);
    DigitValueOfDecimalString(n);
  }

  lemma {:induction false} NothingKeptFromNonNumeric(s: string)
    requires forall i | 0 <= i < |s| :: !IsNumericChar(s[i])
    ensures KeepNumeric(s) == []
  {
    if s != [] {
      NothingKeptFromNonNumeric(s[1..]);
    }
  }

  /** A text with no digit and no point, the empty text included, reads as 0, as `Number("")` does. */
  lemma PriceWithoutDigitsIsZero(text: string)
    requires forall i | 0 <= i < |text| :: !IsNumericChar(text[i])
    ensures Price(text) == Num(Int(0))
  {
    NothingKeptFromNonNumeric(text);
  }

  lemma FilterOfFraction()
    ensures KeepNumeric(",50 kr") == "50"
  {
    assert " kr"[1..] == "kr" && "kr"[1..] == "r" && "r"[1..] == "";
    assert ",50 kr"[1..] == "50 kr" && "50 kr"[1..] == "0 kr" && "0 kr"[1..] == " kr";
  }

  lemma FilterOfSeparatedAmount()
    ensures KeepNumeric("1 234,50 kr") == "123450"
  {
    FilterOfFraction();
    assert "234,50 kr"[1..] == "34,50 kr" && "34,50 kr"[1..] == "4,50 kr" && "4,50 kr"[1..] == ",50 kr";
    assert "1 234,50 kr"[1..] == " 234,50 kr" && " 234,50 kr"[1..] == "234,50 kr";
  }

  lemma ValueOfFilteredAmount()
    ensures AllDigits("123450") && DigitValue("123450") == 123450
  {
    assert DigitValue("1") == 1;
    assert "12"[..1] == "1";
    assert DigitValue("12") == 12;
    assert "123"[..2] == "12";
    assert DigitValue("123") == 123;
    assert "1234"[..3] == "123";
    assert DigitValue("1234") == 1234;
    assert "12345"[..4] == "1234";
    assert DigitValue("12345") == 12345;
    assert "123450"[..5] == "12345";
  }

  /** Separators are dropped together with everything else that is not a digit
      or a point, the decimal comma included: `"1 234,50 kr"` reads as 123450. */
  lemma PriceDropsSeparatorsAndComma()
    ensures Price("1 234,50 kr") == Num(Int(123450))
  {
    FilterOfSeparatedAmount();
    ValueOfFilteredAmount();
  }

  /** The end-time text loses its leading `"Avslutas "`. */
  lemma EndTimeDropsLeadingLabel(t: string)
    ensures EndTime("Avslutas " + t) == Str(t)
  {
    RemoveFirstUndoesPrepend("Avslutas ", t);
  }
}
