/**
 * The event-driven Print Schema parser (src/ticket/document/reader.rs).
 *
 * `Step` is one turn of the parser's loop: it consumes one event and either
 * continues with an updated state (the explicit stacks and single slots of the
 * source) or stops with the parse outcome. `Exec` folds `Step` over an event
 * list, `Run` is the whole parse, and the method `Parse` is the same loop
 * written imperatively.
 */
module Reader {
  import opened Base
  import opened XmlName
  import opened Integers
  import opened PrintSchema
  import opened XmlEvents

  datatype ParseError =
    | InvalidXml
    | InvalidPrintSchema(reason: string)
    | WrongDocumentType(expected: string, found: string)

  /** The three ways a parse can end: a value, a reported error, or a Rust panic (an `unwrap` on `None`). */
  datatype Outcome<+T> = Ok(value: T) | Err(error: ParseError) | Panic

  // ---------------------------------------------------------------------------
  // Names and attributes
  // ---------------------------------------------------------------------------

  /**
   * `parse_qname`: split at the first colon, keep the prefix and resolve it
   * through the bindings in scope; without a colon there is neither prefix nor
   * namespace.
   */
  function ParseQName(ns: Namespace, value: string): (r: OwnedName)
    ensures ':' in value ==>
      && r.prefix.Some?
      && ':' !in r.prefix.value
      && value == r.prefix.value + ":" + r.localName
      && r.namespace == Lookup(ns, r.prefix.value)
    ensures ':' !in value ==> r == OwnedName(value, None, None)
  {
    match FindColon(value)
    case Some(i) =>
      assert value == value[..i] + ":" + value[i + 1..];
      OwnedName(value[i + 1..], Lookup(ns, value[..i]), Some(value[..i]))
    case None => OwnedName(value, None, None)
  }

  predicate IsNameAttribute(a: Attribute)
  {
    a.name.localName == "name" && a.name.namespace.None?
  }

  predicate IsTypeAttribute(a: Attribute)
  {
    a.name.localName == "type" && a.name.namespace == Some(NS_XSI)
  }

  /** The value of the first attribute passing the test. */
  function FindNameAttribute(attrs: seq<Attribute>): (r: Option<string>)
    ensures r.None? <==> forall i :: 0 <= i < |attrs| ==> !IsNameAttribute(attrs[i])
    ensures r.Some? ==> exists i :: 0 <= i < |attrs| && IsNameAttribute(attrs[i]) && attrs[i].value == r.value
                                    && forall j :: 0 <= j < i ==> !IsNameAttribute(attrs[j])
  {
    if |attrs| == 0 then None
    else if IsNameAttribute(attrs[0]) then Some(attrs[0].value)
    else
      var r := FindNameAttribute(attrs[1..]);
      assert forall i :: 1 <= i < |attrs| ==> attrs[i] == attrs[1..][i - 1];
      r
  }

  function FindTypeAttribute(attrs: seq<Attribute>): (r: Option<string>)
    ensures r.None? <==> forall i :: 0 <= i < |attrs| ==> !IsTypeAttribute(attrs[i])
    ensures r.Some? ==> exists i :: 0 <= i < |attrs| && IsTypeAttribute(attrs[i]) && attrs[i].value == r.value
                                    && forall j :: 0 <= j < i ==> !IsTypeAttribute(attrs[j])
  {
    if |attrs| == 0 then None
    else if IsTypeAttribute(attrs[0]) then Some(attrs[0].value)
    else
      var r := FindTypeAttribute(attrs[1..]);
      assert forall i :: 1 <= i < |attrs| ==> attrs[i] == attrs[1..][i - 1];
      r
  }

  /** `parse_name_attribute`: only a non-namespaced attribute called `name` is accepted. */
  function ParseNameAttribute(attrs: seq<Attribute>, ns: Namespace): (r: Option<OwnedName>)
    ensures r.None? <==> forall i :: 0 <= i < |attrs| ==> !IsNameAttribute(attrs[i])
    ensures r.Some? ==> exists i :: 0 <= i < |attrs| && IsNameAttribute(attrs[i])
                                    && r.value == ParseQName(ns, attrs[i].value)
  {
    match FindNameAttribute(attrs)
    case Some(v) => Some(ParseQName(ns, v))
    case None => None
  }

  /** `parse_type_attribute`: only `type` in the XML Schema Instance namespace is accepted. */
  function ParseTypeAttribute(attrs: seq<Attribute>, ns: Namespace): (r: Option<OwnedName>)
    ensures r.None? <==> forall i :: 0 <= i < |attrs| ==> !IsTypeAttribute(attrs[i])
    ensures r.Some? ==> exists i :: 0 <= i < |attrs| && IsTypeAttribute(attrs[i])
                                    && r.value == ParseQName(ns, attrs[i].value)
  {
    match FindTypeAttribute(attrs)
    case Some(v) => Some(ParseQName(ns, v))
    case None => None
  }

  // ---------------------------------------------------------------------------
  // Value decoding (`PsfValueContext::parse`)
  // ---------------------------------------------------------------------------

  /** An open, typed `psf:Value`: the text read so far, its `xsi:type` and the bindings in scope at its start. */
  datatype ValueContext = ValueContext(text: string, valueType: OwnedName, namespace: Namespace)

  /** `t` is the XML Schema built-in type `local`. */
  predicate IsXsdType(t: OwnedName, local: string)
  {
    t.namespace == Some(NS_XSD) && t.localName == local
  }

  predicate IsBuiltinType(t: OwnedName)
  {
    IsXsdType(t, "string") || IsXsdType(t, "integer") || IsXsdType(t, "QName")
  }

  const InvalidInteger: ParseError := InvalidPrintSchema("Invalid integer")

  /**
   * `PsfValueContext::parse`: the three XML Schema built-ins decode to their
   * variants (a malformed integer is an error), every other type is kept as
   * `Unknown` with the raw text.
   */
  function DecodeValue(c: ValueContext): (r: Outcome<PropertyValue>)
    ensures !r.Panic?
    ensures r.Err? <==> IsXsdType(c.valueType, "integer") && ParseI32(c.text).None?
    ensures r.Err? ==> r.error == InvalidInteger
    ensures IsXsdType(c.valueType, "string") ==> r == Ok(String(c.text))
    ensures IsXsdType(c.valueType, "integer") && r.Ok? ==> r.value.Integer? && Some(r.value.number) == ParseI32(c.text)
    ensures IsXsdType(c.valueType, "QName") ==> r == Ok(QName(ParseQName(c.namespace, c.text)))
    ensures !IsBuiltinType(c.valueType) ==> r == Ok(Unknown(c.valueType, c.text))
  {
    if c.valueType.namespace == Some(NS_XSD) && c.valueType.localName == "string" then Ok(String(c.text))
    else if c.valueType.namespace == Some(NS_XSD) && c.valueType.localName == "integer" then
      match ParseI32(c.text)
      case Some(i) => Ok(Integer(i))
      case None => Err(InvalidInteger)
    else if c.valueType.namespace == Some(NS_XSD) && c.valueType.localName == "QName" then
      Ok(QName(ParseQName(c.namespace, c.text)))
    else Ok(Unknown(c.valueType, c.text))
  }

  // ---------------------------------------------------------------------------
  // Parser state
  // ---------------------------------------------------------------------------

  /**
   * The local variables of the parser's loop: the depth counter, the single
   * slots, and one stack per kind of pending children (the top is the last
   * element of each sequence).
   */
  datatype ParserState = ParserState(
    depth: nat,
    optionName: Option<OwnedName>,
    parameterRef: Option<OwnedName>,
    parameterDefName: Option<OwnedName>,
    parameterDefContainer: Option<seq<ParameterDef>>,
    parameterInitName: Option<OwnedName>,
    parameterInitContainer: Option<seq<ParameterInit>>,
    featureNames: seq<OwnedName>,
    featureContainers: seq<seq<PrintFeature>>,
    optionContainers: seq<seq<PrintFeatureOption>>,
    propertyNames: seq<OwnedName>,
    propertyContainers: seq<seq<Property>>,
    scoredPropertyNames: seq<Option<OwnedName>>,
    scoredPropertyContainers: seq<seq<ScoredProperty>>,
    valueContext: Option<ValueContext>,
    parsedValue: Option<PropertyValue>)

  const Initial: ParserState :=
    ParserState(0, None, None, None, None, None, None, [], [], [], [], [], [], [], None, None)

  datatype StepResult = Continue(state: ParserState) | Stop(outcome: Outcome<PrintSchemaDocument>)

  function Top<T>(stack: seq<T>): T
    requires |stack| > 0
  {
    stack[|stack| - 1]
  }

  function Pop<T>(stack: seq<T>): seq<T>
    requires |stack| > 0
  {
    stack[..|stack| - 1]
  }

  /** `stack.last_mut().push(x)` */
  function AppendTop<T>(stack: seq<seq<T>>, x: T): (r: seq<seq<T>>)
    requires |stack| > 0
    ensures |r| == |stack| && Pop(r) == Pop(stack) && Top(r) == Top(stack) + [x]
  {
    Pop(stack) + [Top(stack) + [x]]
  }

  function Fail(reason: string): StepResult
  {
    Stop(Err(InvalidPrintSchema(reason)))
  }

  const NoRootElement: ParseError := InvalidPrintSchema("No valid root element found")

  /** A name in the Print Schema Framework namespace, the form every vocabulary element name takes. */
  predicate IsPsf(name: OwnedName, local: string)
  {
    name.namespace == Some(NS_PSF) && name.localName == local
  }

  /** The elements of the Print Schema Framework vocabulary the parser acts on. */
  datatype Vocabulary =
    | PrintCapabilitiesTag | PrintTicketTag | ParameterDefTag | ParameterInitTag | FeatureTag
    | OptionTag | ParameterRefTag | ScoredPropertyTag | PropertyTag | ValueTag

  /** The vocabulary element a local name spells, compared exactly (case-sensitive). */
  function VocabularyOf(local: string): (r: Option<Vocabulary>)
    ensures r == Some(PrintCapabilitiesTag) <==> local == "PrintCapabilities"
    ensures r == Some(PrintTicketTag) <==> local == "PrintTicket"
    ensures r == Some(ParameterDefTag) <==> local == "ParameterDef"
    ensures r == Some(ParameterInitTag) <==> local == "ParameterInit"
    ensures r == Some(FeatureTag) <==> local == "Feature"
    ensures r == Some(OptionTag) <==> local == "Option"
    ensures r == Some(ParameterRefTag) <==> local == "ParameterRef"
    ensures r == Some(ScoredPropertyTag) <==> local == "ScoredProperty"
    ensures r == Some(PropertyTag) <==> local == "Property"
    ensures r == Some(ValueTag) <==> local == "Value"
  {
    match local
    case "PrintCapabilities" => Some(PrintCapabilitiesTag)
    case "PrintTicket" => Some(PrintTicketTag)
    case "ParameterDef" => Some(ParameterDefTag)
    case "ParameterInit" => Some(ParameterInitTag)
    case "Feature" => Some(FeatureTag)
    case "Option" => Some(OptionTag)
    case "ParameterRef" => Some(ParameterRefTag)
    case "ScoredProperty" => Some(ScoredPropertyTag)
    case "Property" => Some(PropertyTag)
    case "Value" => Some(ValueTag)
    case _ => None
  }

  // ---------------------------------------------------------------------------
  // One turn of the loop
  // ---------------------------------------------------------------------------

  function OnStart(st: ParserState, name: OwnedName, attrs: seq<Attribute>, ns: Namespace): StepResult
  {
    var s := st.(depth := st.depth + 1);
    if name.namespace != Some(NS_PSF) then Continue(s)
    else match VocabularyOf(name.localName)
      case Some(PrintCapabilitiesTag) =>
        if s.depth > 1 then Fail("PrintCapabilities should be root element")
        else Continue(s.(featureContainers := s.featureContainers + [[]],
                         propertyContainers := s.propertyContainers + [[]],
                         parameterDefContainer := Some([])))
      case Some(PrintTicketTag) =>
        if s.depth > 1 then Fail("PrintTicket should be root element")
        else Continue(s.(featureContainers := s.featureContainers + [[]],
                         propertyContainers := s.propertyContainers + [[]],
                         parameterInitContainer := Some([])))
      case Some(ParameterDefTag) =>
        Continue(s.(parameterDefName := ParseNameAttribute(attrs, ns),
                    propertyContainers := s.propertyContainers + [[]]))
      case Some(ParameterInitTag) =>
        Continue(s.(parameterInitName := ParseNameAttribute(attrs, ns)))
      case Some(FeatureTag) =>
        (match ParseNameAttribute(attrs, ns)
         case None => Fail("Feature name not found")
         case Some(n) =>
           Continue(s.(featureNames := s.featureNames + [n],
                       featureContainers := s.featureContainers + [[]],
                       propertyContainers := s.propertyContainers + [[]],
                       optionContainers := s.optionContainers + [[]])))
      case Some(OptionTag) =>
        Continue(s.(optionName := ParseNameAttribute(attrs, ns),
                    propertyContainers := s.propertyContainers + [[]],
                    scoredPropertyContainers := s.scoredPropertyContainers + [[]]))
      case Some(ParameterRefTag) =>
        Continue(s.(parameterRef := ParseNameAttribute(attrs, ns)))
      case Some(ScoredPropertyTag) =>
        Continue(s.(scoredPropertyNames := s.scoredPropertyNames + [ParseNameAttribute(attrs, ns)],
                    propertyContainers := s.propertyContainers + [[]],
                    scoredPropertyContainers := s.scoredPropertyContainers + [[]],
                    parsedValue := None,
                    parameterRef := None))
      case Some(PropertyTag) =>
        (match ParseNameAttribute(attrs, ns)
         case None => Fail("Property name not found")
         case Some(n) =>
           Continue(s.(propertyNames := s.propertyNames + [n],
                       propertyContainers := s.propertyContainers + [[]],
                       parsedValue := None)))
      case Some(ValueTag) =>
        (match ParseTypeAttribute(attrs, ns)
         case Some(t) => Continue(s.(valueContext := Some(ValueContext("", t, ns))))
         case None => Continue(s))
      case None => Fail("Invalid element: " + DisplayName(name))
  }

  function OnEnd(st: ParserState, name: OwnedName): StepResult
  {
    // `depth -= 1` on a `usize`: an end tag at depth 0 overflows (a panic in debug builds)
    if st.depth == 0 then Stop(Panic)
    else
    var s := st.(depth := st.depth - 1);
    if name.namespace != Some(NS_PSF) then Continue(s)
    else match VocabularyOf(name.localName)
      case Some(PrintCapabilitiesTag) =>
        if s.parameterDefContainer.None? || |s.featureContainers| == 0 || |s.propertyContainers| == 0 then Stop(Panic)
        else Stop(Ok(PrintCapabilities(PrintCapabilitiesDocument(
          Top(s.propertyContainers), s.parameterDefContainer.value, Top(s.featureContainers)))))
      case Some(PrintTicketTag) =>
        if s.parameterInitContainer.None? || |s.featureContainers| == 0 || |s.propertyContainers| == 0 then Stop(Panic)
        else Stop(Ok(PrintTicket(PrintTicketDocument(
          Top(s.propertyContainers), s.parameterInitContainer.value, Top(s.featureContainers)))))
      case Some(ParameterDefTag) =>
        if s.parameterDefName.None? || |s.propertyContainers| == 0 then Stop(Panic)
        else if s.parameterDefContainer.None? then Fail("ParameterDef cannot be here")
        else
          var def := ParameterDef(s.parameterDefName.value, Top(s.propertyContainers));
          Continue(s.(parameterDefName := None,
                      propertyContainers := Pop(s.propertyContainers),
                      parameterDefContainer := Some(s.parameterDefContainer.value + [def])))
      case Some(ParameterInitTag) =>
        if s.parameterInitName.None? then Stop(Panic)
        else if s.parsedValue.None? then Fail("ParameterInit value not found")
        else if s.parameterInitContainer.None? then Fail("ParameterInit cannot be here")
        else
          var init := ParameterInit(s.parameterInitName.value, s.parsedValue.value);
          Continue(s.(parameterInitName := None,
                      parsedValue := None,
                      parameterInitContainer := Some(s.parameterInitContainer.value + [init])))
      case Some(FeatureTag) =>
        if |s.featureNames| == 0 || |s.featureContainers| == 0
           || |s.propertyContainers| == 0 || |s.optionContainers| == 0 then Stop(Panic)
        else
          var parents := Pop(s.featureContainers);
          if |parents| == 0 then Fail("Feature cannot be here")
          else
            var f := PrintFeature(Top(s.featureNames), Top(s.propertyContainers),
                                  Top(s.optionContainers), Top(s.featureContainers));
            Continue(s.(featureNames := Pop(s.featureNames),
                        featureContainers := AppendTop(parents, f),
                        propertyContainers := Pop(s.propertyContainers),
                        optionContainers := Pop(s.optionContainers)))
      case Some(OptionTag) =>
        if |s.propertyContainers| == 0 || |s.scoredPropertyContainers| == 0 then Stop(Panic)
        else if |s.optionContainers| == 0 then Fail("Option cannot be here")
        else
          var o := PrintFeatureOption(s.optionName, Top(s.scoredPropertyContainers), Top(s.propertyContainers));
          Continue(s.(optionName := None,
                      propertyContainers := Pop(s.propertyContainers),
                      scoredPropertyContainers := Pop(s.scoredPropertyContainers),
                      optionContainers := AppendTop(s.optionContainers, o)))
      case Some(ScoredPropertyTag) =>
        if |s.scoredPropertyNames| == 0 || |s.propertyContainers| == 0
           || |s.scoredPropertyContainers| == 0 then Stop(Panic)
        else
          var parents := Pop(s.scoredPropertyContainers);
          if |parents| == 0 then Fail("ScoredProperty cannot be here")
          else
            var sp := ScoredProperty(Top(s.scoredPropertyNames), s.parameterRef, s.parsedValue,
                                     Top(s.scoredPropertyContainers), Top(s.propertyContainers));
            Continue(s.(scoredPropertyNames := Pop(s.scoredPropertyNames),
                        propertyContainers := Pop(s.propertyContainers),
                        scoredPropertyContainers := AppendTop(parents, sp),
                        parameterRef := None,
                        parsedValue := None))
      case Some(PropertyTag) =>
        if |s.propertyNames| == 0 || |s.propertyContainers| == 0 then Stop(Panic)
        else
          var parents := Pop(s.propertyContainers);
          if |parents| == 0 then Fail("Property cannot be here")
          else
            var p := Property(Top(s.propertyNames), s.parsedValue, Top(s.propertyContainers));
            Continue(s.(propertyNames := Pop(s.propertyNames),
                        propertyContainers := AppendTop(parents, p),
                        parsedValue := None))
      case Some(ValueTag) =>
        (match s.valueContext
         case None => Continue(s)
         case Some(c) =>
           match DecodeValue(c)
           case Ok(v) => Continue(s.(valueContext := None, parsedValue := Some(v)))
           case Err(e) => Stop(Err(e))
           case Panic => Stop(Panic))
      case _ => Continue(s)
  }

  /** Text inside an open typed `psf:Value` is accumulated; anywhere else it is dropped. */
  function OnText(st: ParserState, text: string): StepResult
  {
    match st.valueContext
    case Some(c) => Continue(st.(valueContext := Some(c.(text := c.text + text))))
    case None => Continue(st)
  }

  function Step(st: ParserState, e: XmlEvent): StepResult
  {
    match e
    case StartElement(name, attrs, ns) => OnStart(st, name, attrs, ns)
    case EndElement(name) => OnEnd(st, name)
    case Characters(t) => OnText(st, t)
    case Whitespace(_) => OnText(st, " ")
    case CData(t) => OnText(st, t)
    case EndDocument => Stop(Err(NoRootElement))
    case Other => Continue(st)
    case LexError => Stop(Err(InvalidXml))
  }

  /** The loop run over a list of events, stopping at the first outcome. */
  function Exec(st: ParserState, events: seq<XmlEvent>): StepResult
    decreases |events|
  {
    if |events| == 0 then Continue(st)
    else match Step(st, events[0])
      case Stop(o) => Stop(o)
      case Continue(s) => Exec(s, events[1..])
  }

  /** Running two lists back to back is running the first, then the second from where it left off. */
  lemma {:induction false} ExecAppend(st: ParserState, a: seq<XmlEvent>, b: seq<XmlEvent>)
    ensures Exec(st, a + b) == match Exec(st, a) case Stop(o) => Stop(o) case Continue(s) => Exec(s, b)
    decreases |a|
  {
    if |a| > 0 {
      assert (a + b)[0] == a[0];
      assert (a + b)[1..] == a[1..] + b;
      match Step(st, a[0])
      case Stop(o) =>
      case Continue(s) => ExecAppend(s, a[1..], b);
    } else {
      assert a + b == b;
    }
  }

  /**
   * `PrintSchemaDocument::parse`. A list that runs out is read as ending with
   * `EndDocument`, which the lexer always delivers last.
   */
  function Run(events: seq<XmlEvent>): Outcome<PrintSchemaDocument>
  {
    match Exec(Initial, events)
    case Stop(o) => o
    case Continue(_) => Err(NoRootElement)
  }

  /** The parser itself only reports malformed XML or a violated Print Schema rule. */
  predicate IsReaderError(e: ParseError)
  {
    e.InvalidXml? || e.InvalidPrintSchema?
  }

  lemma {:induction false} ExecErrorsAreReaderErrors(st: ParserState, events: seq<XmlEvent>)
    ensures Exec(st, events).Stop? && Exec(st, events).outcome.Err? ==> IsReaderError(Exec(st, events).outcome.error)
    decreases |events|
  {
    if |events| > 0 {
      match Step(st, events[0])
      case Stop(o) =>
      case Continue(s) => ExecErrorsAreReaderErrors(s, events[1..]);
    }
  }

  lemma RunErrorsAreReaderErrors(events: seq<XmlEvent>)
    ensures Run(events).Err? ==> IsReaderError(Run(events).error)
  {
    ExecErrorsAreReaderErrors(Initial, events);
  }

  /** The parser's loop, written as the source writes it: one event per turn, state kept in local variables. */
  method Parse(events: seq<XmlEvent>) returns (r: Outcome<PrintSchemaDocument>)
    ensures r == Run(events)
  {
    var st := Initial;
    var i := 0;
    while i < |events|
      invariant 0 <= i <= |events|
      invariant Exec(Initial, events) == Exec(st, events[i..])
    {
      assert events[i..][0] == events[i] && events[i..][1..] == events[i + 1..];
      var next := Step(st, events[i]);
      if next.Stop? {
        return next.outcome;
      }
      st := next.state;
      i := i + 1;
    }
    return Err(NoRootElement);
  }

  // ---------------------------------------------------------------------------
  // Typed entry points
  // ---------------------------------------------------------------------------

  /** `PrintCapabilitiesDocument::parse`: a ticket root is a `WrongDocumentType` error. */
  function ParseCapabilities(events: seq<XmlEvent>): (r: Outcome<PrintCapabilitiesDocument>)
    ensures r.Ok? <==> Run(events).Ok? && Run(events).value.PrintCapabilities?
    ensures r.Ok? ==> Run(events) == Ok(PrintCapabilities(r.value))
    ensures Run(events).Ok? && Run(events).value.PrintTicket? <==>
            r == Err(WrongDocumentType("PrintCapabilities", "PrintTicket"))
    ensures Run(events).Err? ==> r == Err(Run(events).error)
    ensures r.Panic? <==> Run(events).Panic?
  {
    RunErrorsAreReaderErrors(events);
    match Run(events)
    case Ok(PrintCapabilities(d)) => Ok(d)
    case Ok(PrintTicket(_)) => Err(WrongDocumentType("PrintCapabilities", "PrintTicket"))
    case Err(e) => Err(e)
    case Panic => Panic
  }

  /** `PrintTicketDocument::parse`: a capabilities root is a `WrongDocumentType` error. */
  function ParseTicket(events: seq<XmlEvent>): (r: Outcome<PrintTicketDocument>)
    ensures r.Ok? <==> Run(events).Ok? && Run(events).value.PrintTicket?
    ensures r.Ok? ==> Run(events) == Ok(PrintTicket(r.value))
    ensures Run(events).Ok? && Run(events).value.PrintCapabilities? <==>
            r == Err(WrongDocumentType("PrintTicket", "PrintCapabilities"))
    ensures Run(events).Err? ==> r == Err(Run(events).error)
    ensures r.Panic? <==> Run(events).Panic?
  {
    RunErrorsAreReaderErrors(events);
    match Run(events)
    case Ok(PrintTicket(d)) => Ok(d)
    case Ok(PrintCapabilities(_)) => Err(WrongDocumentType("PrintTicket", "PrintCapabilities"))
    case Err(e) => Err(e)
    case Panic => Panic
  }

  // ---------------------------------------------------------------------------
  // Properties of the loop
  // ---------------------------------------------------------------------------

  /** The parse stops at the first outcome: nothing after the root's end tag (or the first error) is read. */
  lemma RunIgnoresRest(a: seq<XmlEvent>, b: seq<XmlEvent>)
    requires Exec(Initial, a).Stop?
    ensures Run(a + b) == Run(a)
  {
    ExecAppend(Initial, a, b);
  }

  /** A document that ends before any root element has closed is rejected with "No valid root element found". */
  lemma EndWithoutRootRejected(a: seq<XmlEvent>, b: seq<XmlEvent>)
    requires Exec(Initial, a).Continue?
    ensures Run(a + [EndDocument] + b) == Err(NoRootElement)
  {
    ExecAppend(Initial, a, [EndDocument] + b);
    assert a + [EndDocument] + b == a + ([EndDocument] + b);
  }

  /** Malformed XML anywhere before the root closes is `InvalidXml`. */
  lemma LexErrorRejected(a: seq<XmlEvent>, b: seq<XmlEvent>)
    requires Exec(Initial, a).Continue?
    ensures Run(a + [LexError] + b) == Err(InvalidXml)
  {
    ExecAppend(Initial, a, [LexError] + b);
    assert a + [LexError] + b == a + ([LexError] + b);
  }

  /** A root element is only accepted at depth one: nested anywhere, it is an error naming the element. */
  lemma RootOnlyAtTop(st: ParserState, name: OwnedName, attrs: seq<Attribute>, ns: Namespace)
    requires IsPsf(name, "PrintCapabilities") || IsPsf(name, "PrintTicket")
    ensures Step(st, StartElement(name, attrs, ns)).Stop? <==> st.depth >= 1
    ensures st.depth >= 1 && name.localName == "PrintCapabilities" ==>
      Step(st, StartElement(name, attrs, ns)) == Fail("PrintCapabilities should be root element")
    ensures st.depth >= 1 && name.localName == "PrintTicket" ==>
      Step(st, StartElement(name, attrs, ns)) == Fail("PrintTicket should be root element")
  {
  }

  /** The element names of the Print Schema vocabulary that the parser knows. */
  predicate IsVocabulary(local: string)
  {
    local in {"PrintCapabilities", "PrintTicket", "ParameterDef", "ParameterInit", "Feature",
              "Option", "ParameterRef", "ScoredProperty", "Property", "Value"}
  }

  /** Any other element in the Print Schema Framework namespace is an error naming it. */
  lemma UnknownElementRejected(st: ParserState, name: OwnedName, attrs: seq<Attribute>, ns: Namespace)
    requires name.namespace == Some(NS_PSF) && !IsVocabulary(name.localName)
    ensures Step(st, StartElement(name, attrs, ns)) == Fail("Invalid element: " + DisplayName(name))
  {
  }

  /** Elements outside the Print Schema Framework namespace are skipped, but still counted in the depth. */
  lemma ForeignElementsSkipped(st: ParserState, name: OwnedName, attrs: seq<Attribute>, ns: Namespace)
    requires name.namespace != Some(NS_PSF)
    ensures Step(st, StartElement(name, attrs, ns)) == Continue(st.(depth := st.depth + 1))
    ensures st.depth > 0 ==> Step(st, EndElement(name)) == Continue(st.(depth := st.depth - 1))
    ensures st.depth == 0 ==> Step(st, EndElement(name)) == Stop(Panic)
  {
  }

  /** A `Feature` or `Property` start tag without a usable `name` attribute is an error. */
  lemma NamelessFeatureOrPropertyRejected(st: ParserState, name: OwnedName, attrs: seq<Attribute>, ns: Namespace)
    requires IsPsf(name, "Feature") || IsPsf(name, "Property")
    ensures Step(st, StartElement(name, attrs, ns)).Stop? <==>
            forall i :: 0 <= i < |attrs| ==> !IsNameAttribute(attrs[i])
    ensures Step(st, StartElement(name, attrs, ns)).Stop? && name.localName == "Feature" ==>
            Step(st, StartElement(name, attrs, ns)) == Fail("Feature name not found")
    ensures Step(st, StartElement(name, attrs, ns)).Stop? && name.localName == "Property" ==>
            Step(st, StartElement(name, attrs, ns)) == Fail("Property name not found")
  {
  }

  /** Closing a `ParameterDef` or `ParameterInit` whose start tag had no name is an `unwrap` on `None`. */
  lemma NamelessParameterPanics(st: ParserState, name: OwnedName)
    requires st.depth > 0
    requires (IsPsf(name, "ParameterDef") && st.parameterDefName.None?)
          || (IsPsf(name, "ParameterInit") && st.parameterInitName.None?)
    ensures Step(st, EndElement(name)) == Stop(Panic)
  {
  }

  /** A `ParameterDef` is only accepted inside a capabilities document, a `ParameterInit` only inside a ticket. */
  lemma MisplacedParameterRejected(st: ParserState, name: OwnedName)
    requires st.depth > 0
    requires (IsPsf(name, "ParameterDef") && st.parameterDefName.Some? && |st.propertyContainers| > 0
              && st.parameterDefContainer.None?)
          || (IsPsf(name, "ParameterInit") && st.parameterInitName.Some? && st.parsedValue.Some?
              && st.parameterInitContainer.None?)
    ensures name.localName == "ParameterDef" ==> Step(st, EndElement(name)) == Fail("ParameterDef cannot be here")
    ensures name.localName == "ParameterInit" ==> Step(st, EndElement(name)) == Fail("ParameterInit cannot be here")
  {
  }

  /** A `ParameterInit` closed without a decoded value is an error. */
  lemma ParameterInitNeedsValue(st: ParserState, name: OwnedName)
    requires st.depth > 0 && IsPsf(name, "ParameterInit") && st.parameterInitName.Some? && st.parsedValue.None?
    ensures Step(st, EndElement(name)) == Fail("ParameterInit value not found")
  {
  }

  /**
   * Text only matters inside a typed `psf:Value`: character data and CDATA are
   * appended verbatim, a whitespace run becomes a single space, and with no
   * open value all three leave the state alone.
   */
  lemma TextAccumulates(st: ParserState, t: string)
    ensures st.valueContext.None? ==>
      && Step(st, Characters(t)) == Continue(st)
      && Step(st, CData(t)) == Continue(st)
      && Step(st, Whitespace(t)) == Continue(st)
    ensures st.valueContext.Some? ==>
      && Step(st, Characters(t)).state.valueContext == Some(st.valueContext.value.(text := st.valueContext.value.text + t))
      && Step(st, CData(t)).state.valueContext == Some(st.valueContext.value.(text := st.valueContext.value.text + t))
      && Step(st, Whitespace(t)).state.valueContext == Some(st.valueContext.value.(text := st.valueContext.value.text + " "))
  {
  }

  /** A `psf:Value` without an `xsi:type` attribute is ignored, both its start and (with no open value) its end. */
  lemma UntypedValueIgnored(st: ParserState, name: OwnedName, attrs: seq<Attribute>, ns: Namespace)
    requires IsPsf(name, "Value") && forall i :: 0 <= i < |attrs| ==> !IsTypeAttribute(attrs[i])
    ensures Step(st, StartElement(name, attrs, ns)) == Continue(st.(depth := st.depth + 1))
    ensures st.depth > 0 && st.valueContext.None? ==>
            Step(st, EndElement(name)) == Continue(st.(depth := st.depth - 1))
  {
  }

  /** Closing a typed value decodes it into the pending-value slot, or stops with the decoding error. */
  lemma ValueEndDecodes(st: ParserState, name: OwnedName)
    requires st.depth > 0 && IsPsf(name, "Value") && st.valueContext.Some?
    ensures DecodeValue(st.valueContext.value).Ok? ==>
      Step(st, EndElement(name)) ==
        Continue(st.(depth := st.depth - 1, valueContext := None,
                     parsedValue := Some(DecodeValue(st.valueContext.value).value)))
    ensures DecodeValue(st.valueContext.value).Err? ==> Step(st, EndElement(name)) == Fail("Invalid integer")
  {
  }

  /**
   * Closing the root returns the document: the top property and feature
   * containers and the parameter list the root opened.
   */
  lemma RootEndReturnsDocument(st: ParserState, name: OwnedName)
    requires st.depth > 0 && |st.propertyContainers| > 0 && |st.featureContainers| > 0
    ensures IsPsf(name, "PrintCapabilities") && st.parameterDefContainer.Some? ==>
      Step(st, EndElement(name)) == Stop(Ok(PrintCapabilities(PrintCapabilitiesDocument(
        Top(st.propertyContainers), st.parameterDefContainer.value, Top(st.featureContainers)))))
    ensures IsPsf(name, "PrintTicket") && st.parameterInitContainer.Some? ==>
      Step(st, EndElement(name)) == Stop(Ok(PrintTicket(PrintTicketDocument(
        Top(st.propertyContainers), st.parameterInitContainer.value, Top(st.featureContainers)))))
  {
  }
}
