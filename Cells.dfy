/** The caller-owned mutable cells through which the parser reports what it
    parsed: a boxed boolean, a string buffer and a list of strings. The parser
    only holds references to them and writes through those references. */
module Cells {

  /** A boolean with reference semantics, shared between the caller and the
      options bound to it. */
  class BoolRef {
    var value: bool

    constructor (value: bool)
      ensures this.value == value
    {
      this.value := value;
    }
  }

  /** The string buffer used as a value option's target. The parser uses only
      `Clear` and `Append` on it. */
  class StringBuilder {
    var content: string

    constructor ()
      ensures content == ""
    {
      content := "";
    }

    method Clear()
      modifies this
      ensures content == ""
    {
      content := "";
    }

    method Append(s: string)
      modifies this
      ensures content == old(content) + s
    {
      content := content + s;
    }
  }

  /** The caller's positional-argument list. The parser only appends to it. */
  class StringList {
    var items: seq<string>

    constructor ()
      ensures items == []
    {
      items := [];
    }

    method Add(s: string)
      modifies this
      ensures items == old(items) + [s]
    {
      items := items + [s];
    }
  }
}
