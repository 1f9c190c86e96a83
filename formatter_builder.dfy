/**
 * The formatter builder: an ordered list of printer elements that grows in place,
 * and the step that freezes a copy of it, with a locale, into a formatter.
 */
module FormatterBuilder {

  import opened Wrappers
  import opened Currencies
  import opened AmountStyles
  import opened Printers

  /** A built formatter: its locale and its own array of printers. */
  class MoneyFormatter {
    const locale: Locale
    const printers: array<Printer>

    constructor (locale: Locale, printers: array<Printer>)
      ensures this.locale == locale && this.printers == printers
    {
      this.locale := locale;
      this.printers := printers;
    }
  }

  class MoneyFormatterBuilder {
    /** The printers appended so far, in call order. */
    var printers: seq<Printer>

    /** A new, empty builder. */
    constructor ()
      ensures printers == []
    {
      printers := [];
    }

    /** Adds a printer at the end; an absent printer is ignored. */
    method AppendInternal(printer: Option<Printer>)
      modifies this
      ensures printer.Some? ==> printers == old(printers) + [printer.value]
      ensures printer.None? ==> printers == old(printers)
    {
      if printer.Some? {
        printers := printers + [printer.value];
      }
    }

    /** Appends the amount, grouped and localized. */
    method AppendAmount()
      modifies this
      ensures printers == old(printers) + [Amount(LocalizedGrouping)]
    {
      AppendInternal(Some(Amount(LocalizedGrouping)));
    }

    /** Appends the amount in the given style. */
    method AppendAmountInStyle(style: AmountStyle)
      modifies this
      ensures printers == old(printers) + [Amount(style)]
    {
      AppendInternal(Some(Amount(style)));
    }

    /** Appends the three-letter currency code. */
    method AppendCurrencyCode()
      modifies this
      ensures printers == old(printers) + [Code]
    {
      AppendInternal(Some(Code));
    }

    /** Appends the numeric currency code, zero padded to three digits. */
    method AppendCurrencyNumeric3Code()
      modifies this
      ensures printers == old(printers) + [Numeric3Code]
    {
      AppendInternal(Some(Numeric3Code));
    }

    /** Appends the numeric currency code. */
    method AppendCurrencyNumericCode()
      modifies this
      ensures printers == old(printers) + [NumericCode]
    {
      AppendInternal(Some(NumericCode));
    }

    /** Appends the currency symbol of the formatter's locale. */
    method AppendCurrencySymbolLocalized()
      modifies this
      ensures printers == old(printers) + [LocalizedSymbol]
    {
      AppendInternal(Some(LocalizedSymbol));
    }

    /** Appends a literal; an absent or empty literal is ignored. */
    method AppendLiteral(literal: Option<string>)
      modifies this
      ensures literal.None? || literal.value == [] ==> printers == old(printers)
      ensures literal.Some? && literal.value != [] ==> printers == old(printers) + [Literal(literal.value)]
    {
      if literal.None? || |literal.value| == 0 {
        return;
      }
      AppendInternal(Some(Literal(literal.value)));
    }

    /** Appends a printer supplied by the caller. */
    method Append(printer: Printer)
      modifies this
      ensures printers == old(printers) + [printer]
    {
      AppendInternal(Some(printer));
    }

    /**
     * Builds a formatter for `locale` over a fresh array holding the current printers
     * in order; the builder is left as it was and stays usable.
     */
    method ToFormatter(locale: Locale) returns (formatter: MoneyFormatter)
      ensures fresh(formatter) && fresh(formatter.printers) && unchanged(this)
      ensures formatter.locale == locale && formatter.printers[..] == printers
    {
      var current := printers;
      var copy := new Printer[|current|](i requires 0 <= i < |current| => current[i]);
      formatter := new MoneyFormatter(locale, copy);
    }
  }

  /**
   * A built formatter is a snapshot: appending to the builder afterwards changes
   * the builder's list but not the formatter's printers.
   */
  method BuildThenAppend(builder: MoneyFormatterBuilder, locale: Locale, later: Printer) returns (formatter: MoneyFormatter)
    modifies builder
    ensures formatter.printers[..] == old(builder.printers)
    ensures builder.printers == old(builder.printers) + [later]
  {
    formatter := builder.ToFormatter(locale);
    builder.Append(later);
  }

  /** A non-empty literal appended to the builder prints as exactly that text. */
  method AppendLiteralPrintsIt(builder: MoneyFormatterBuilder, literal: string, context: PrintContext, money: Money)
    requires literal != []
    modifies builder
    ensures |builder.printers| == |old(builder.printers)| + 1
    ensures builder.printers[..|old(builder.printers)|] == old(builder.printers)
    ensures Print(builder.printers[|builder.printers| - 1], context, money) == literal
  {
    builder.AppendLiteral(Some(literal));
  }
}
