/**
 * How the xml crate's reader sees what its writer produced: the bridge the
 * round trip needs. Escaping and byte encoding are taken to be lossless;
 * what is modelled is what the reader changes: prefixed names are resolved
 * through the bindings the root declares, empty text produces no event, and a
 * text made only of XML whitespace comes back as a `Whitespace` event.
 */
module Lexer {
  import opened Base
  import opened XmlName
  import opened XmlEvents
  import opened Serializer
  import Reader

  /** The XML whitespace characters (section 2.3 of the XML 1.0 recommendation, production S). */
  predicate IsXmlWhitespace(c: char)
  {
    c == ' ' || c == '\t' || c == '\n' || c == '\r'
  }

  predicate AllWhitespace(t: string)
  {
    forall i :: 0 <= i < |t| ==> IsXmlWhitespace(t[i])
  }

  /** The events a written text run comes back as. */
  function ReadText(t: string): (r: seq<XmlEvent>)
    ensures |r| <= 1
    ensures r == [] <==> t == ""
    ensures |r| == 1 ==> (r[0].Whitespace? <==> AllWhitespace(t))
    ensures |r| == 1 ==> r[0].Characters? || r[0].Whitespace?
    ensures |r| == 1 && r[0].Characters? ==> r[0].text == t
  {
    if t == "" then []
    else if AllWhitespace(t) then [Whitespace(t)]
    else [Characters(t)]
  }

  function ReadAttributes(ns: Namespace, attrs: seq<WriterAttribute>): (r: seq<Attribute>)
    ensures |r| == |attrs|
    ensures forall i :: 0 <= i < |attrs| ==>
      r[i] == Attribute(Reader.ParseQName(ns, attrs[i].name), attrs[i].value)
  {
    if |attrs| == 0 then []
    else [Attribute(Reader.ParseQName(ns, attrs[0].name), attrs[0].value)] + ReadAttributes(ns, attrs[1..])
  }

  function ReadEvent(ns: Namespace, e: WriterEvent): seq<XmlEvent>
  {
    match e
    case Open(element, attrs, _) => [StartElement(Reader.ParseQName(ns, element), ReadAttributes(ns, attrs), ns)]
    case Close(element) => [EndElement(Reader.ParseQName(ns, element))]
    case Text(t) => ReadText(t)
  }

  /** The reader's events for a run of writer events, all read under the bindings `ns`. */
  function Read(ns: Namespace, events: seq<WriterEvent>): seq<XmlEvent>
    decreases |events|
  {
    if |events| == 0 then [] else ReadEvent(ns, events[0]) + Read(ns, events[1..])
  }

  lemma {:induction false} ReadAppend(ns: Namespace, a: seq<WriterEvent>, b: seq<WriterEvent>)
    ensures Read(ns, a + b) == Read(ns, a) + Read(ns, b)
    decreases |a|
  {
    if |a| == 0 {
      assert a + b == b;
    } else {
      assert (a + b)[0] == a[0];
      assert (a + b)[1..] == a[1..] + b;
      ReadAppend(ns, a[1..], b);
    }
  }

  /**
   * A whole written document as read back: every element lies in the scope
   * of the bindings its root declares, and the lexer ends with `EndDocument`.
   */
  function ReadDocument(events: seq<WriterEvent>): seq<XmlEvent>
  {
    var ns := if |events| > 0 && events[0].Open? then events[0].namespace else map[];
    Read(ns, events) + [EndDocument]
  }
}
