/**
 * `Copies` (src/ticket/copies.rs): a copy count and the print ticket that asks
 * for it, modelled at the level of the ticket document.
 */
module Copies {
  import opened Base
  import opened XmlName
  import opened Integers
  import opened PrintSchema

  /** `Copies(pub u16)` */
  datatype Copies = Copies(count: u16)

  /** The parameter the ticket sets: `psk:JobCopiesAllDocuments`. */
  function JobCopiesName(): OwnedName
  {
    Qualified("JobCopiesAllDocuments", NS_PSK, Some("psk"))
  }

  /**
   * `From<Copies> for PrintTicket`: a ticket with one parameter initialisation,
   * the copy count as an integer, and nothing else.
   */
  function CopiesTicket(c: Copies): (r: PrintTicketDocument)
    ensures r.properties == [] && r.features == []
    ensures |r.parameterInits| == 1
    ensures r.parameterInits[0].name.localName == "JobCopiesAllDocuments"
    ensures r.parameterInits[0].name.namespace == Some(NS_PSK) && r.parameterInits[0].name.prefix == Some("psk")
    ensures r.parameterInits[0].value.Integer?
    ensures 0 <= r.parameterInits[0].value.number <= 65535
  {
    PrintTicketDocument([], [ParameterInit(JobCopiesName(), Integer(c.count as i32))], [])
  }

  /** The copy count a ticket asks for, when its `psk:JobCopiesAllDocuments` holds a count that fits a `u16`. */
  function RequestedCopies(t: PrintTicketDocument): (r: Option<u16>)
  {
    match FindParameter(t.parameterInits, JobCopiesName())
    case Some(Integer(n)) => if 0 <= n < 0x1_0000 then Some(n) else None
    case _ => None
  }

  /** The ticket asks for exactly the copies it was made from. */
  lemma CopiesTicketRequests(c: Copies)
    ensures RequestedCopies(CopiesTicket(c)) == Some(c.count)
  {
    assert IsFirstParameter(CopiesTicket(c).parameterInits, JobCopiesName(), 0);
  }

  /** So different copy counts give different tickets. */
  lemma CopiesTicketInjective(c: Copies, d: Copies)
    requires CopiesTicket(c) == CopiesTicket(d)
    ensures c == d
  {
    CopiesTicketRequests(c);
    CopiesTicketRequests(d);
  }
}
