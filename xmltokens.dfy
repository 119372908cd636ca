/** The XML tokens the reader's hand-written decoders consume. Tokenizing itself belongs to
    Go's `encoding/xml` and is not part of the model: its output is taken as given. */
module XmlTokens {

  /** A qualified name: `space` is the resolved namespace, `local` the name after the prefix. */
  datatype Name = Name(space: string, local: string)

  datatype Attr = Attr(name: Name, value: string)

  datatype Token =
    | StartElement(name: Name, attrs: seq<Attr>)
    | EndElement(name: Name)
    | CharData(text: string)
      /** A comment, processing instruction or directive. */
    | Other(text: string)
      /** The tokenizer returned an error other than io.EOF. */
    | SyntaxError(message: string)

  /** Every attribute's local name is one of `names`. */
  predicate AllLocalNamesIn(attrs: seq<Attr>, names: set<string>) {
    forall i | 0 <= i < |attrs| :: attrs[i].name.local in names
  }

  /** The local names an attribute list uses. */
  function LocalNames(attrs: seq<Attr>): set<string> {
    set i | 0 <= i < |attrs| :: attrs[i].name.local
  }
}
