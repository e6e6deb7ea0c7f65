/**
 * The older copy of the parser (src/ticket/print_schema_parser.rs).
 *
 * Its loop (lines 129-421) is the loop of src/ticket/document/reader.rs
 * (lines 160-453) statement for statement, over the older copy of the tree
 * (src/ticket/print_schema.rs), which has the same shape and helpers as the
 * newer one. So the document parse is `Reader.Run`; what differs is the typed
 * entry points, which here are inherent functions built with
 * `Result::and_then`.
 */
module LegacyParser {
  import opened XmlEvents
  import opened PrintSchema
  import opened Reader

  /** `Result::and_then` over the three parse outcomes: a panic or an error passes through unchanged. */
  function AndThen<T, U>(o: Outcome<T>, f: T -> Outcome<U>): (r: Outcome<U>)
    ensures o.Ok? ==> r == f(o.value)
    ensures o.Err? ==> r == Err(o.error)
    ensures o.Panic? ==> r.Panic?
  {
    match o
    case Ok(v) => f(v)
    case Err(e) => Err(e)
    case Panic => Panic
  }

  function ExpectCapabilities(x: PrintSchemaDocument): Outcome<PrintCapabilitiesDocument>
  {
    match x
    case PrintCapabilities(d) => Ok(d)
    case PrintTicket(_) => Err(WrongDocumentType("PrintCapabilities", "PrintTicket"))
  }

  function ExpectTicket(x: PrintSchemaDocument): Outcome<PrintTicketDocument>
  {
    match x
    case PrintTicket(d) => Ok(d)
    case PrintCapabilities(_) => Err(WrongDocumentType("PrintTicket", "PrintCapabilities"))
  }

  /** `PrintSchemaDocument::parse_as_capabilities`: a ticket root is `WrongDocumentType`. */
  function ParseAsCapabilities(events: seq<XmlEvent>): (r: Outcome<PrintCapabilitiesDocument>)
    ensures r.Ok? <==> Run(events).Ok? && Run(events).value.PrintCapabilities?
    ensures r.Ok? ==> Run(events) == Ok(PrintCapabilities(r.value))
    ensures Run(events).Ok? && Run(events).value.PrintTicket? <==>
            r == Err(WrongDocumentType("PrintCapabilities", "PrintTicket"))
    ensures Run(events).Err? ==> r == Err(Run(events).error)
    ensures r.Panic? <==> Run(events).Panic?
  {
    RunErrorsAreReaderErrors(events);
    AndThen(Run(events), ExpectCapabilities)
  }

  /** `PrintSchemaDocument::parse_as_ticket`: a capabilities root is `WrongDocumentType`. */
  function ParseAsTicket(events: seq<XmlEvent>): (r: Outcome<PrintTicketDocument>)
    ensures r.Ok? <==> Run(events).Ok? && Run(events).value.PrintTicket?
    ensures r.Ok? ==> Run(events) == Ok(PrintTicket(r.value))
    ensures Run(events).Ok? && Run(events).value.PrintCapabilities? <==>
            r == Err(WrongDocumentType("PrintTicket", "PrintCapabilities"))
    ensures Run(events).Err? ==> r == Err(Run(events).error)
    ensures r.Panic? <==> Run(events).Panic?
  {
    RunErrorsAreReaderErrors(events);
    AndThen(Run(events), ExpectTicket)
  }

  /**
   * The two generations of typed entry points agree on every input: the older
   * inherent functions and the newer `ParsableXmlDocument` implementations.
   */
  lemma LegacyAgreesWithReader(events: seq<XmlEvent>)
    ensures ParseAsCapabilities(events) == ParseCapabilities(events)
    ensures ParseAsTicket(events) == ParseTicket(events)
  {
  }

  /** Exactly one of the two typed parses succeeds on a document that parses. */
  lemma ExactlyOneKind(events: seq<XmlEvent>)
    requires Run(events).Ok?
    ensures ParseAsCapabilities(events).Ok? != ParseAsTicket(events).Ok?
  {
  }
}
