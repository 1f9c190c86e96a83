/** The output buffer printers append to (Java's `Appendable`, without its I/O failures). */
module Output {

  class Appendable {
    var text: string

    constructor (initial: string)
      ensures text == initial
    {
      text := initial;
    }

    method Append(s: string)
      modifies this
      ensures text == old(text) + s
    {
      text := text + s;
    }
  }
}
