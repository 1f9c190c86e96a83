/**
 * The state shared by the parsers of one parse call: the text, the cursor, and the
 * position at which an error was recorded (-1 while there is none).
 */
module ParseContexts {

  class MoneyParseContext {
    const text: string
    var index: nat
    var errorIndex: int

    constructor (text: string, index: nat)
      ensures this.text == text && this.index == index && errorIndex == -1
    {
      this.text := text;
      this.index := index;
      errorIndex := -1;
    }

    function TextLength(): nat {
      |text|
    }

    function TextSubstring(start: nat, end: nat): (s: string)
      requires start <= end <= |text|
      ensures |s| == end - start
    {
      text[start..end]
    }

    predicate IsError()
      reads this
    {
      errorIndex >= 0
    }

    method SetIndex(index: nat)
      modifies this`index
      ensures this.index == index
    {
      this.index := index;
    }

    /** Records an error at the current cursor, which stays where it is. */
    method SetError()
      modifies this`errorIndex
      ensures errorIndex == index && IsError()
    {
      errorIndex := index;
    }
  }
}
