/**
 * The events the xml crate's `EventReader` hands to the Print Schema parser.
 * Lexing itself (bytes, escapes, encodings) is not modelled: a document is the
 * list of events the lexer would produce for it.
 */
module XmlEvents {
  import opened XmlName

  /** An attribute as read: its resolved name and its raw value. */
  datatype Attribute = Attribute(name: OwnedName, value: string)

  datatype XmlEvent =
    /** A start tag with its resolved name, attributes and the namespace bindings in scope. */
    | StartElement(name: OwnedName, attributes: seq<Attribute>, namespace: Namespace)
    | EndElement(name: OwnedName)
    | Characters(text: string)
    /** A text run made only of XML whitespace. */
    | Whitespace(text: string)
    | CData(text: string)
    | EndDocument
    /** StartDocument, comments and processing instructions: ignored by the parser. */
    | Other
    /** The lexer reported malformed XML (`reader.next()` returned an error). */
    | LexError
}
