/**
 * The literal element of the print/parse protocol: printing appends the literal;
 * parsing accepts exactly the literal at the cursor and moves past it, or records
 * an error and leaves the cursor in place.
 */
module LiteralPrinting {

  import opened Output
  import opened ParseContexts

  /** Whether `literal` occurs in `text` starting exactly at `index`. */
  predicate LiteralAt(literal: string, text: string, index: nat) {
    index + |literal| <= |text| && text[index..index + |literal|] == literal
  }

  class LiteralPrinterParser {
    const literal: string

    constructor (literal: string)
      ensures this.literal == literal
    {
      this.literal := literal;
    }

    /** Appends the literal and nothing else. */
    method Print(appendable: Appendable)
      modifies appendable
      ensures appendable.text == old(appendable.text) + literal
    {
      appendable.Append(literal);
    }

    /**
     * On a match at the cursor the cursor moves past the literal and the error is
     * untouched; otherwise the error is recorded at the cursor, which stays put.
     */
    method Parse(context: MoneyParseContext)
      modifies context
      ensures LiteralAt(literal, context.text, old(context.index)) ==>
        context.index == old(context.index) + |literal| && context.errorIndex == old(context.errorIndex)
      ensures !LiteralAt(literal, context.text, old(context.index)) ==>
        context.index == old(context.index) && context.errorIndex == old(context.index)
    {
      var endPos := context.index + |literal|;
      if endPos <= context.TextLength() && context.TextSubstring(context.index, endPos) == literal {
        context.SetIndex(endPos);
      } else {
        context.SetError();
      }
    }
  }

  /** A match at `index` is the same as the literal being a prefix of the text from `index`. */
  lemma LiteralAtIsPrefix(literal: string, text: string, index: nat)
    ensures LiteralAt(literal, text, index) <==> index <= |text| && literal <= text[index..]
  {
    if index <= |text| && literal <= text[index..] {
      assert text[index..index + |literal|] == text[index..][..|literal|];
    }
  }

  /** Round trip: a literal printed after `prefix` is matched at `|prefix|`, whatever follows it. */
  lemma LiteralAfterPrefix(prefix: string, literal: string, suffix: string)
    ensures LiteralAt(literal, prefix + literal + suffix, |prefix|)
  {
    var text := prefix + literal + suffix;
    assert text[|prefix|..|prefix| + |literal|] == literal;
  }

  /** Conversely, a match splits the text into what precedes, the literal, and what follows. */
  lemma LiteralAtSplits(literal: string, text: string, index: nat)
    requires LiteralAt(literal, text, index)
    ensures text == text[..index] + literal + text[index + |literal|..]
  {
    assert text == text[..index] + text[index..index + |literal|] + text[index + |literal|..];
  }

  /** The empty literal matches exactly at the positions within the text. */
  lemma EmptyLiteralAt(text: string, index: nat)
    ensures LiteralAt([], text, index) <==> index <= |text|
  {
    if index <= |text| {
      assert text[index..index] == [];
    }
  }

  /**
   * Printing a literal between `prefix` and `suffix` and then parsing it from the
   * end of `prefix` succeeds and leaves the cursor just past the literal.
   */
  method PrintThenParse(literal: string, prefix: string, suffix: string) returns (index: nat, errorIndex: int)
    ensures index == |prefix| + |literal|
    ensures errorIndex == -1
  {
    var element := new LiteralPrinterParser(literal);
    var out := new Appendable(prefix);
    element.Print(out);
    out.Append(suffix);
    var context := new MoneyParseContext(out.text, |prefix|);
    LiteralAfterPrefix(prefix, literal, suffix);
    element.Parse(context);
    index, errorIndex := context.index, context.errorIndex;
  }

  /** Parsing where the literal does not occur records the error at the start position and does not move. */
  method ParseMismatch(literal: string, text: string, start: nat) returns (index: nat, errorIndex: int)
    requires !LiteralAt(literal, text, start)
    ensures index == start && errorIndex == start
  {
    var element := new LiteralPrinterParser(literal);
    var context := new MoneyParseContext(text, start);
    element.Parse(context);
    index, errorIndex := context.index, context.errorIndex;
  }
}
