/**
 * The collaborators the printers read from: the locale, the currency (an abstract
 * record standing in for the registry's CurrencyUnit) and the money value being printed.
 */
module Currencies {

  import opened Numerals

  /** A locale, identified by its language tag. */
  datatype Locale = Locale(tag: string)

  /**
   * A currency as the registry hands it out: its three-letter code, its numeric code,
   * the numeric code as a three-digit string, and its symbol in each locale.
   */
  datatype CurrencyUnit = CurrencyUnit(
    code: string,
    numericCode: int,
    numeric3Code: string,
    symbol: Locale -> string)

  /**
   * A money value as the printers see it: the currency and the amount's plain
   * (non-exponential) decimal string, i.e. the result of `BigDecimal.toPlainString`.
   */
  datatype Money = Money(currency: CurrencyUnit, plainAmount: string)

  /** At least one digit, then optionally a '.' followed by at least one digit. */
  predicate IsUnsignedDecimal(b: string) {
    (|b| > 0 && AllDigits(b)) ||
    exists k {:trigger b[k]} :: 0 < k < |b| - 1 && b[k] == '.' && AllDigits(b[..k]) && AllDigits(b[k + 1..])
  }

  /** The shape of a plain decimal string: an optional '-', then an unsigned decimal. */
  predicate IsPlainDecimal(s: string) {
    if |s| > 0 && s[0] == '-' then IsUnsignedDecimal(s[1..]) else IsUnsignedDecimal(s)
  }

  lemma ForeignCharNotInUnsignedDecimal(b: string, c: char)
    requires IsUnsignedDecimal(b)
    requires !IsDigit(c) && c != '.'
    ensures c !in b
  {
    forall i | 0 <= i < |b| ensures b[i] != c {
      if !(|b| > 0 && AllDigits(b)) {
        var k :| 0 < k < |b| - 1 && b[k] == '.' && AllDigits(b[..k]) && AllDigits(b[k + 1..]);
        if i < k {
          assert b[..k][i] == b[i];
        } else if i > k {
          assert b[k + 1..][i - k - 1] == b[i];
        }
      }
    }
  }

  /** A character that is neither a digit, nor '-', nor '.' never occurs in a plain decimal string. */
  lemma ForeignCharNotInPlainDecimal(s: string, c: char)
    requires IsPlainDecimal(s)
    requires !IsDigit(c) && c != '-' && c != '.'
    ensures c !in s
  {
    if |s| > 0 && s[0] == '-' {
      ForeignCharNotInUnsignedDecimal(s[1..], c);
      assert s == [s[0]] + s[1..];
    } else {
      ForeignCharNotInUnsignedDecimal(s, c);
    }
  }
}
