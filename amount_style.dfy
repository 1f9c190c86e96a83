/**
 * The amount style consulted by the amount printer, and its localization.
 * A style may leave characters and the grouping size unset; `Localize` fills them
 * from the formatting symbols of the locale in use, once per print call.
 */
module AmountStyles {

  import opened Wrappers

  /** Grouping sizes are positive. */
  type GroupingSize = n: int | n > 0 witness 3

  /** An amount style whose unset (`None`) parts are taken from the locale. */
  datatype AmountStyle = AmountStyle(
    zeroCharacter: Option<char>,
    decimalPointCharacter: Option<char>,
    groupingCharacter: Option<char>,
    groupingSize: Option<GroupingSize>,
    grouping: bool,
    forceDecimalPoint: bool)

  /** The characters and grouping size a locale uses for amounts. */
  datatype DecimalSymbols = DecimalSymbols(
    zeroCharacter: char,
    decimalPointCharacter: char,
    groupingCharacter: char,
    groupingSize: GroupingSize)

  /** A style with every part known: what the amount printer actually reads. */
  datatype ResolvedStyle = ResolvedStyle(
    zeroCharacter: char,
    decimalPointCharacter: char,
    groupingCharacter: char,
    groupingSize: GroupingSize,
    grouping: bool,
    forceDecimalPoint: bool)

  /** Grouping enabled, every character and the size taken from the locale. */
  const LocalizedGrouping := AmountStyle(None, None, None, None, true, false)

  function Pick<T>(explicit: Option<T>, fallback: T): T {
    match explicit
    case Some(v) => v
    case None => fallback
  }

  /**
   * Resolves a style against a locale's symbols: parts the style sets are kept,
   * unset parts come from the locale, and the two flags are kept.
   */
  function Localize(style: AmountStyle, symbols: DecimalSymbols): ResolvedStyle {
    ResolvedStyle(
      Pick(style.zeroCharacter, symbols.zeroCharacter),
      Pick(style.decimalPointCharacter, symbols.decimalPointCharacter),
      Pick(style.groupingCharacter, symbols.groupingCharacter),
      Pick(style.groupingSize, symbols.groupingSize),
      style.grouping,
      style.forceDecimalPoint)
  }

  /**
   * A resolved style written back as a style: every part set. This is what the
   * amount printer stores in its own style field after localizing it.
   */
  function Settled(r: ResolvedStyle): AmountStyle {
    AmountStyle(Some(r.zeroCharacter), Some(r.decimalPointCharacter), Some(r.groupingCharacter),
                Some(r.groupingSize), r.grouping, r.forceDecimalPoint)
  }

  /** Localizing a style with every part set ignores the locale: a settled style stays as it is. */
  lemma LocalizeSettled(r: ResolvedStyle, symbols: DecimalSymbols)
    ensures Localize(Settled(r), symbols) == r
  {
  }

  /**
   * Once the localized style has been written back, a later localization under any
   * other locale gives the first locale's style again.
   */
  lemma WrittenBackStyleKeepsFirstLocale(style: AmountStyle, first: DecimalSymbols, later: DecimalSymbols)
    ensures Localize(Settled(Localize(style, first)), later) == Localize(style, first)
  {
    LocalizeSettled(Localize(style, first), later);
  }

  /**
   * So a style that leaves the decimal point to the locale prints a later locale's
   * point only when it is localized afresh, never after the write-back.
   */
  lemma WrittenBackStyleIgnoresLaterPoint(style: AmountStyle, first: DecimalSymbols, later: DecimalSymbols)
    requires style.decimalPointCharacter.None?
    requires first.decimalPointCharacter != later.decimalPointCharacter
    ensures Localize(style, later).decimalPointCharacter == later.decimalPointCharacter
    ensures Localize(Settled(Localize(style, first)), later).decimalPointCharacter == first.decimalPointCharacter
  {
    WrittenBackStyleKeepsFirstLocale(style, first, later);
  }
}
