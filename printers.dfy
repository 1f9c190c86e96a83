/**
 * The six printer elements a formatter is built from, as one closed type with a
 * single print operation. Each element produces the text it appends to the output.
 */
module Printers {

  import opened Wrappers
  import opened Numerals
  import opened Currencies
  import opened AmountStyles
  import opened AmountPrinting

  datatype Printer =
    | Amount(style: AmountStyle)
    | Code
    | Numeric3Code
    | NumericCode
    | LocalizedSymbol
    | Literal(text: string)

  /**
   * What one print call carries: the locale, and the amount symbols of every locale,
   * so that the style is always localized with the symbols of this call's locale.
   */
  datatype PrintContext = PrintContext(locale: Locale, symbols: Locale -> DecimalSymbols)
  {
    /** The amount symbols of this call's locale. */
    function AmountSymbols(): DecimalSymbols {
      symbols(locale)
    }
  }

  /**
   * The text an element appends when printing `money`: the formatted amount, or
   * exactly one field of the currency, or the literal text.
   */
  function Print(printer: Printer, context: PrintContext, money: Money): (text: string)
    ensures printer.Amount? ==> text == AmountText(Localize(printer.style, context.AmountSymbols()), money.plainAmount)
    ensures printer.Code? ==> text == money.currency.code
    ensures printer.Numeric3Code? ==> text == money.currency.numeric3Code
    ensures printer.NumericCode? ==> ParseInt(text) == Some(money.currency.numericCode)
    ensures printer.NumericCode? && money.currency.numericCode >= 0 ==> AllDigits(text) && (text[0] == '0' ==> text == "0")
    ensures printer.NumericCode? && money.currency.numericCode < 0 ==>
      |text| >= 2 && text[0] == '-' && AllDigits(text[1..]) && text[1] != '0'
    ensures printer.LocalizedSymbol? ==> text == money.currency.symbol(context.locale)
    ensures printer.Literal? ==> text == printer.text
  {
    match printer
    case Amount(style) => AmountText(Localize(style, context.AmountSymbols()), money.plainAmount)
    case Code => money.currency.code
    case Numeric3Code => money.currency.numeric3Code
    case NumericCode =>
      IntToStringRoundTrip(money.currency.numericCode);
      IntToString(money.currency.numericCode)
    case LocalizedSymbol => money.currency.symbol(context.locale)
    case Literal(text) => text
  }

  /**
   * The amount element with grouping off prints the plain amount with its '.'
   * replaced by the decimal point, or followed by a point only when one is forced.
   */
  lemma PrintUngroupedAmount(style: AmountStyle, context: PrintContext, money: Money)
    requires !style.grouping
    ensures var text := Print(Amount(style), context, money);
      var point := Localize(style, context.AmountSymbols()).decimalPointCharacter;
      var plain := money.plainAmount;
      if '.' in plain then
        |text| == |plain| && text[IndexOf(plain, '.')] == point &&
        forall k :: 0 <= k < |plain| && plain[k] != '.' ==> text[k] == plain[k]
      else
        text == if style.forceDecimalPoint then plain + [point] else plain
  {
    var plain := money.plainAmount;
    UngroupedAmount(Localize(style, context.AmountSymbols()), plain);
    if '.' in plain {
      var decPoint := IndexOf(plain, '.');
      forall k | 0 <= k < |plain| && plain[k] != '.' ensures k != decPoint {}
    }
  }

  /**
   * The amount element with grouping on, over a well-formed plain amount and a
   * grouping character that is not a digit, '-', '.' or the decimal point: deleting
   * the grouping characters gives exactly the ungrouped rendering.
   */
  lemma PrintGroupedAmountStrips(style: AmountStyle, context: PrintContext, money: Money)
    requires style.grouping && IsPlainDecimal(money.plainAmount)
    requires var r := Localize(style, context.AmountSymbols());
      !IsDigit(r.groupingCharacter) && r.groupingCharacter !in {'-', '.', r.decimalPointCharacter}
    ensures var r := Localize(style, context.AmountSymbols());
      Strip(Print(Amount(style), context, money), r.groupingCharacter)
        == Print(Amount(style.(grouping := false)), context, money)
  {
    var r := Localize(style, context.AmountSymbols());
    StripGroupedPlainDecimal(r, money.plainAmount);
    assert Localize(style.(grouping := false), context.AmountSymbols()) == r.(grouping := false);
  }
}
