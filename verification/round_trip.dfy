/**
 * Writing a document and reading it back. The serializer's tests promise
 * that a parsed document re-serializes to the same bytes; the model proves
 * the stronger statement that the document itself comes back, under stated
 * conditions on its names, values and shape, and shows by counterexample
 * what goes wrong outside them.
 */
module RoundTrip {
  import opened Base
  import opened XmlName
  import opened Integers
  import opened PrintSchema
  import opened XmlEvents
  import opened Reader
  import opened Serializer
  import opened Lexer
  import opened ReadBack

  // ---------------------------------------------------------------------------
  // Names
  // ---------------------------------------------------------------------------

  /**
   * A name survives `format_name` followed by `parse_qname` under the table
   * `ns`: a prefix holds no colon and resolves to the name's own namespace;
   * an unprefixed name has no colon and no namespace.
   */
  predicate NameResolves(ns: Namespace, n: OwnedName)
  {
    match n.prefix
    case Some(p) => ':' !in p && Lookup(ns, p) == n.namespace
    case None => ':' !in n.localName && n.namespace.None?
  }

  predicate OptionalNameResolves(ns: Namespace, n: Option<OwnedName>)
  {
    n.Some? ==> NameResolves(ns, n.value)
  }

  lemma OptionalNameParts(ns: Namespace, n: Option<OwnedName>)
    requires OptionalNameResolves(ns, n)
    ensures n.Some? ==> NameResolves(ns, n.value)
  {
  }

  lemma PrefixedParses(ns: Namespace, p: string, local: string)
    requires ':' !in p
    ensures ParseQName(ns, p + ":" + local) == OwnedName(local, Lookup(ns, p), Some(p))
  {
    var s := p + ":" + local;
    assert s[|p|] == ':';
    var i := FindColon(s).value;
    assert s[..|p|] == p;
    assert s[|p| + 1..] == local;
  }

  /** `parse_qname` inverts `format_name` exactly on the names that resolve. */
  lemma FormatNameParses(ns: Namespace, n: OwnedName)
    ensures ParseQName(ns, FormatName(n)) == n <==> NameResolves(ns, n)
  {
    match n.prefix
    case Some(p) =>
      if ':' !in p {
        PrefixedParses(ns, p, n.localName);
      }
    case None =>
  }

  /** A vocabulary element name is read back in the Print Schema Framework namespace. */
  lemma PsfElementParses(ns: Namespace, local: string)
    requires Lookup(ns, "psf") == Some(NS_PSF)
    ensures ParseQName(ns, PsfElement(local)) == OwnedName(local, Some(NS_PSF), Some("psf"))
  {
    assert ':' !in "psf";
    assert PsfElement(local) == "psf" + ":" + local;
    PrefixedParses(ns, "psf", local);
  }

  lemma NameAttributeReads(ns: Namespace, n: OwnedName)
    requires NameResolves(ns, n)
    ensures ParseNameAttribute(ReadAttributes(ns, NameAttribute(n)), ns) == Some(n)
  {
    assert ':' !in "name";
    FormatNameParses(ns, n);
    var attrs := ReadAttributes(ns, NameAttribute(n));
    assert attrs[0] == Attribute(OwnedName("name", None, None), FormatName(n));
  }

  // ---------------------------------------------------------------------------
  // Reading and running written events piece by piece
  // ---------------------------------------------------------------------------

  lemma ExecNothing(ns: Namespace, st: ParserState)
    ensures Exec(st, Read(ns, [])) == Continue(st)
  {
  }

  /** Two written pieces read and run back to back. */
  lemma ExecThen(ns: Namespace, st: ParserState, a: seq<WriterEvent>, b: seq<WriterEvent>, s1: ParserState, s2: ParserState)
    requires Exec(st, Read(ns, a)) == Continue(s1)
    requires Exec(s1, Read(ns, b)) == Continue(s2)
    ensures Exec(st, Read(ns, a + b)) == Continue(s2)
  {
    ReadAppend(ns, a, b);
    ExecAppend(st, Read(ns, a), Read(ns, b));
  }

  /** One written element, opened, filled and closed, read and run. */
  lemma ExecElement(ns: Namespace, st: ParserState, open: WriterEvent, body: seq<WriterEvent>, close: WriterEvent,
                    e0: XmlEvent, e1: XmlEvent, s1: ParserState, s2: ParserState, r: StepResult)
    requires ReadEvent(ns, open) == [e0] && ReadEvent(ns, close) == [e1]
    requires Step(st, e0) == Continue(s1)
    requires Exec(s1, Read(ns, body)) == Continue(s2)
    requires Step(s2, e1) == r
    ensures Exec(st, Read(ns, [open] + body + [close])) == r
  {
    assert Read(ns, [open]) == [e0];
    assert Read(ns, [close]) == [e1];
    ReadAppend(ns, [open] + body, [close]);
    ReadAppend(ns, [open], body);
    assert Read(ns, [open] + body + [close]) == [e0] + Read(ns, body) + [e1];
    ExecAppend(st, [e0] + Read(ns, body), [e1]);
    ExecAppend(st, [e0], Read(ns, body));
  }

  /** The name a vocabulary element is read back with. */
  function PsfName(local: string): OwnedName
  {
    OwnedName(local, Some(NS_PSF), Some("psf"))
  }

  lemma OpenReads(ns: Namespace, local: string, attrs: seq<WriterAttribute>, m: Namespace)
    requires PsfBound(ns)
    ensures ReadEvent(ns, Open(PsfElement(local), attrs, m)) == [StartElement(PsfName(local), ReadAttributes(ns, attrs), ns)]
  {
    PsfElementParses(ns, local);
  }

  lemma CloseReads(ns: Namespace, local: string)
    requires PsfBound(ns)
    ensures ReadEvent(ns, Close(PsfElement(local))) == [EndElement(PsfName(local))]
  {
    PsfElementParses(ns, local);
  }

  lemma OptionalNameAttributeReads(ns: Namespace, element: string, n: Option<OwnedName>)
    requires OptionalNameResolves(ns, n)
    ensures StartWithOptionalName(element, n).Open?
    ensures StartWithOptionalName(element, n).element == element
    ensures StartWithOptionalName(element, n).namespace == map[]
    ensures ParseNameAttribute(ReadAttributes(ns, StartWithOptionalName(element, n).attributes), ns) == n
  {
    if n.Some? {
      NameAttributeReads(ns, n.value);
    }
  }

  lemma PushTopPop<T>(stack: seq<T>, x: T)
    ensures |stack + [x]| > 0 && Top(stack + [x]) == x && Pop(stack + [x]) == stack
  {
  }

  /** `stack.last_mut().extend(xs)` */
  function AppendAllTop<T>(stack: seq<seq<T>>, xs: seq<T>): (r: seq<seq<T>>)
    requires |stack| > 0
    ensures |r| == |stack| && Pop(r) == Pop(stack) && Top(r) == Top(stack) + xs
  {
    Pop(stack) + [Top(stack) + xs]
  }

  lemma AppendAllTopEmpty<T>(stack: seq<seq<T>>)
    requires |stack| > 0
    ensures AppendAllTop(stack, []) == stack
  {
    assert Top(stack) + [] == Top(stack);
  }

  lemma AppendAllTopCons<T>(stack: seq<seq<T>>, xs: seq<T>)
    requires |stack| > 0 && |xs| > 0
    ensures AppendAllTop(AppendTop(stack, xs[0]), xs[1..]) == AppendAllTop(stack, xs)
  {
    assert Top(stack) + [xs[0]] + xs[1..] == Top(stack) + xs;
  }

  lemma AppendAllTopPrepend<T>(stack: seq<seq<T>>, x: T, ys: seq<T>)
    requires |stack| > 0
    ensures AppendAllTop(AppendTop(stack, x), ys) == AppendAllTop(stack, [x] + ys)
  {
    assert Top(stack) + [x] + ys == Top(stack) + ([x] + ys);
  }

  /** A fresh container filled with `xs` and then popped leaves `xs` on top and the old stack below. */
  lemma PushedContainer<T>(stack: seq<seq<T>>, xs: seq<T>)
    ensures |AppendAllTop(stack + [[]], xs)| > 0
    ensures Top(AppendAllTop(stack + [[]], xs)) == xs
    ensures Pop(AppendAllTop(stack + [[]], xs)) == stack
  {
    assert [] + xs == xs;
  }

  // ---------------------------------------------------------------------------
  // Values
  // ---------------------------------------------------------------------------

  /**
   * The reader turns a written text back into the same text unless it is a
   * whitespace run of more than one character, which becomes a single space.
   */
  predicate TextSurvives(t: string)
  {
    t == "" || t == " " || !AllWhitespace(t)
  }

  /**
   * A value comes back from the reader when `xsi` means the XML Schema
   * Instance namespace, its type name resolves, its text survives, and an
   * unknown type does not spell one of the three built-in types. A
   * qualified name must resolve and carry no namespace: the writer puts a
   * namespace in braces in front of the name, which the reader does not
   * undo (`QNameAsWrittenMisread`).
   */
  predicate ValueResolves(ns: Namespace, v: PropertyValue)
  {
    && Lookup(ns, "xsi") == Some(NS_XSI)
    && NameResolves(ns, XsiType(v))
    && TextSurvives(ValueText(v))
    && (v.QName? ==> NameResolves(ns, v.qname) && v.qname.namespace.None?)
    && (v.Unknown? ==> !IsBuiltinType(v.typeName))
  }

  predicate PsfBound(ns: Namespace)
  {
    Lookup(ns, "psf") == Some(NS_PSF)
  }

  /** Without a namespace, `Display` and `format_name` spell a name alike. */
  lemma DisplayWithoutNamespace(n: OwnedName)
    requires n.namespace.None?
    ensures DisplayName(n) == FormatName(n)
  {
    match n.prefix
    case Some(p) => assert "" + (p + ":") + n.localName == p + ":" + n.localName;
    case None => assert "" + "" + n.localName == n.localName;
  }

  /**
   * Whatever text `parse_qname` reads, `format_name` spells it again, and
   * the name it reads resolves under the same table.
   */
  lemma ParsedNameFormats(ns: Namespace, t: string)
    ensures FormatName(ParseQName(ns, t)) == t
    ensures NameResolves(ns, ParseQName(ns, t))
  {
  }

  /**
   * The value decoder inverts the value writer: same type name, same text
   * back to the same value, for every value whose qualified name, if any,
   * has no namespace.
   */
  lemma DecodeValueText(ns: Namespace, v: PropertyValue)
    requires NameResolves(ns, XsiType(v))
    requires v.QName? ==> NameResolves(ns, v.qname) && v.qname.namespace.None?
    requires v.Unknown? ==> !IsBuiltinType(v.typeName)
    ensures DecodeValue(ValueContext(ValueText(v), XsiType(v), ns)) == Ok(v)
  {
    match v
    case Integer(i) => ParseI32OfToString(i);
    case QName(q) =>
      DisplayWithoutNamespace(q);
      FormatNameParses(ns, q);
    case String(_) =>
    case Unknown(_, _) =>
  }

  /**
   * With the qualified name written by `format_name`, the value decoder
   * inverts the value writer for every resolving name, namespace or not.
   */
  lemma DecodeCorrectedValueText(ns: Namespace, v: PropertyValue)
    requires NameResolves(ns, XsiType(v))
    requires v.QName? ==> NameResolves(ns, v.qname)
    requires v.Unknown? ==> !IsBuiltinType(v.typeName)
    ensures DecodeValue(ValueContext(CorrectedValueText(v), XsiType(v), ns)) == Ok(v)
  {
    match v
    case Integer(i) => ParseI32OfToString(i);
    case QName(q) => FormatNameParses(ns, q);
    case String(_) =>
    case Unknown(_, _) =>
  }

  /**
   * What the reader makes of a value as the source writes it: a qualified
   * name comes back as whatever `parse_qname` reads from its `Display`;
   * every other value comes back as itself.
   */
  lemma DecodeWrittenValue(ns: Namespace, v: PropertyValue)
    requires NameResolves(ns, XsiType(v))
    requires v.Unknown? ==> !IsBuiltinType(v.typeName)
    ensures v.QName? ==> DecodeValue(ValueContext(ValueText(v), XsiType(v), ns))
                         == Ok(QName(ParseQName(ns, QNameTextAsWritten(v.qname))))
    ensures !v.QName? ==> DecodeValue(ValueContext(ValueText(v), XsiType(v), ns)) == Ok(v)
  {
    match v
    case Integer(i) => ParseI32OfToString(i);
    case QName(q) =>
    case String(_) =>
    case Unknown(_, _) =>
  }

  lemma StartValueStep(st: ParserState, attrs: seq<Attribute>, ns: Namespace, t: OwnedName)
    requires ParseTypeAttribute(attrs, ns) == Some(t)
    ensures Step(st, StartElement(PsfName("Value"), attrs, ns)) ==
            Continue(st.(depth := st.depth + 1, valueContext := Some(ValueContext("", t, ns))))
  {
  }

  lemma EndValueStep(st: ParserState, v: PropertyValue)
    requires st.depth > 0 && st.valueContext.Some? && DecodeValue(st.valueContext.value) == Ok(v)
    ensures Step(st, EndElement(PsfName("Value"))) ==
            Continue(st.(depth := st.depth - 1, valueContext := None, parsedValue := Some(v)))
  {
  }

  /** The text an open value holds once a written text has been read. */
  lemma TextStep(ns: Namespace, st: ParserState, c: ValueContext, t: string)
    requires st.valueContext == Some(c) && c.text == "" && TextSurvives(t)
    ensures Exec(st, Read(ns, [Text(t)])) == Continue(st.(valueContext := Some(c.(text := t))))
  {
    assert Read(ns, [Text(t)]) == ReadText(t);
    if t == "" {
      assert c.(text := t) == c;
    } else if AllWhitespace(t) {
      assert t == " " && c.text + " " == t;
    } else {
      assert c.text + t == t;
    }
  }

  lemma TypeAttributeReads(ns: Namespace, t: OwnedName)
    requires NameResolves(ns, t) && Lookup(ns, "xsi") == Some(NS_XSI)
    ensures ParseTypeAttribute(ReadAttributes(ns, [WriterAttribute("xsi:type", FormatName(t))]), ns) == Some(t)
  {
    assert ':' !in "xsi" && "xsi:type" == "xsi" + ":" + "type";
    PrefixedParses(ns, "xsi", "type");
    FormatNameParses(ns, t);
    var attrs := ReadAttributes(ns, [WriterAttribute("xsi:type", FormatName(t))]);
    assert attrs[0] == Attribute(OwnedName("type", Some(NS_XSI), Some("xsi")), FormatName(t));
  }

  lemma ValueParts(ns: Namespace, v: PropertyValue)
    requires ValueResolves(ns, v)
    ensures Lookup(ns, "xsi") == Some(NS_XSI) && NameResolves(ns, XsiType(v)) && TextSurvives(ValueText(v))
    ensures v.QName? ==> NameResolves(ns, v.qname) && v.qname.namespace.None?
    ensures v.Unknown? ==> !IsBuiltinType(v.typeName)
    ensures WriteValue(v) ==
      [Open(PsfElement("Value"), [WriterAttribute("xsi:type", FormatName(XsiType(v)))], map[])]
      + [Text(ValueText(v))] + [Close(PsfElement("Value"))]
  {
  }

  lemma ExecValue(ns: Namespace, st: ParserState, v: PropertyValue)
    requires PsfBound(ns) && ValueResolves(ns, v)
    requires st.valueContext.None?
    ensures Exec(st, Read(ns, WriteValue(v))) == Continue(st.(parsedValue := Some(v)))
  {
    hide *;
    ValueParts(ns, v);
    var attrs := [WriterAttribute("xsi:type", FormatName(XsiType(v)))];
    var open := Open(PsfElement("Value"), attrs, map[]);
    var close := Close(PsfElement("Value"));
    OpenReads(ns, "Value", attrs, map[]);
    CloseReads(ns, "Value");
    TypeAttributeReads(ns, XsiType(v));
    var c := ValueContext("", XsiType(v), ns);
    StartValueStep(st, ReadAttributes(ns, attrs), ns, XsiType(v));
    var s1 := st.(depth := st.depth + 1, valueContext := Some(c));
    TextStep(ns, s1, c, ValueText(v));
    var s2 := s1.(valueContext := Some(c.(text := ValueText(v))));
    DecodeValueText(ns, v);
    EndValueStep(s2, v);
    ExecElement(ns, st, open, [Text(ValueText(v))], close, StartElement(PsfName("Value"), ReadAttributes(ns, attrs), ns),
                EndElement(PsfName("Value")), s1, s2, Continue(st.(parsedValue := Some(v))));
  }

  lemma ExecOptionalValue(ns: Namespace, st: ParserState, v: Option<PropertyValue>)
    requires PsfBound(ns) && (v.Some? ==> ValueResolves(ns, v.value))
    requires st.valueContext.None? && st.parsedValue.None?
    ensures Exec(st, Read(ns, WriteOptionalValue(v))) == Continue(st.(parsedValue := v))
  {
    if v.Some? {
      ExecValue(ns, st, v.value);
    }
  }

  // ---------------------------------------------------------------------------
  // Properties
  // ---------------------------------------------------------------------------

  /** Every name and value in a property, and in its sub-properties, resolves. */
  predicate PropertyResolves(ns: Namespace, p: Property)
    decreases p
  {
    && NameResolves(ns, p.name)
    && (p.value.Some? ==> ValueResolves(ns, p.value.value))
    && PropertiesResolve(ns, p.properties)
  }

  predicate PropertiesResolve(ns: Namespace, ps: seq<Property>)
    decreases ps
  {
    |ps| == 0 || (PropertyResolves(ns, ps[0]) && PropertiesResolve(ns, ps[1..]))
  }

  lemma StartPropertyStep(st: ParserState, attrs: seq<Attribute>, ns: Namespace, n: OwnedName)
    requires ParseNameAttribute(attrs, ns) == Some(n)
    ensures Step(st, StartElement(PsfName("Property"), attrs, ns)) ==
            Continue(st.(depth := st.depth + 1, propertyNames := st.propertyNames + [n],
                         propertyContainers := st.propertyContainers + [[]], parsedValue := None))
  {
  }

  lemma EndPropertyStep(st: ParserState)
    requires st.depth > 0 && |st.propertyNames| > 0 && |st.propertyContainers| > 1
    ensures Step(st, EndElement(PsfName("Property"))) ==
            Continue(st.(depth := st.depth - 1, propertyNames := Pop(st.propertyNames),
                         propertyContainers := AppendTop(Pop(st.propertyContainers),
                           Property(Top(st.propertyNames), st.parsedValue, Top(st.propertyContainers))),
                         parsedValue := None))
  {
  }

  lemma PropertyParts(ns: Namespace, p: Property)
    requires PropertyResolves(ns, p)
    ensures NameResolves(ns, p.name) && PropertiesResolve(ns, p.properties)
    ensures p.value.Some? ==> ValueResolves(ns, p.value.value)
    ensures RereadProperty(p) == Property(p.name, if |p.properties| > 0 then None else p.value, RereadProperties(p.properties))
    ensures WriteProperty(p) ==
      [Open(PsfElement("Property"), NameAttribute(p.name), map[])]
      + (WriteOptionalValue(p.value) + WriteProperties(p.properties))
      + [Close(PsfElement("Property"))]
  {
    PropertyResolvesParts(ns, p);
    RereadPropertyParts(p);
    var o, a, b, e := [Open(PsfElement("Property"), NameAttribute(p.name), map[])], WriteOptionalValue(p.value),
                      WriteProperties(p.properties), [Close(PsfElement("Property"))];
    WritePropertyParts(p);
    hide *;
    Regroup4(o, a, b, e);
  }

  lemma PropertyResolvesParts(ns: Namespace, p: Property)
    requires PropertyResolves(ns, p)
    ensures NameResolves(ns, p.name) && PropertiesResolve(ns, p.properties)
    ensures p.value.Some? ==> ValueResolves(ns, p.value.value)
  {
  }

  lemma RereadPropertyParts(p: Property)
    ensures RereadProperty(p) == Property(p.name, if |p.properties| > 0 then None else p.value, RereadProperties(p.properties))
  {
  }

  lemma WritePropertyParts(p: Property)
    ensures WriteProperty(p) ==
      [Open(PsfElement("Property"), NameAttribute(p.name), map[])] + WriteOptionalValue(p.value)
      + WriteProperties(p.properties) + [Close(PsfElement("Property"))]
  {
  }

  lemma PropertiesParts(ns: Namespace, ps: seq<Property>)
    requires PropertiesResolve(ns, ps)
    ensures |ps| == 0 ==> WriteProperties(ps) == []
    ensures |ps| > 0 ==> PropertyResolves(ns, ps[0]) && PropertiesResolve(ns, ps[1..])
    ensures |ps| > 0 ==> WriteProperties(ps) == WriteProperty(ps[0]) + WriteProperties(ps[1..])
    ensures |ps| == 0 ==> RereadProperties(ps) == []
    ensures |ps| > 0 ==> RereadProperties(ps) == [RereadProperty(ps[0])] + RereadProperties(ps[1..])
  {
  }

  /**
   * A written property is rebuilt as `RereadProperty` says, whatever value
   * was pending before it; its end tag leaves no value pending.
   */
  lemma {:induction false} ExecProperty(ns: Namespace, st: ParserState, p: Property)
    requires PsfBound(ns) && PropertyResolves(ns, p)
    requires st.valueContext.None? && |st.propertyContainers| > 0
    ensures Exec(st, Read(ns, WriteProperty(p))) ==
            Continue(st.(propertyContainers := AppendTop(st.propertyContainers, RereadProperty(p)), parsedValue := None))
    decreases p, 1
  {
    hide *;
    PropertyParts(ns, p);
    var attrs := NameAttribute(p.name);
    var open := Open(PsfElement("Property"), attrs, map[]);
    var close := Close(PsfElement("Property"));
    OpenReads(ns, "Property", attrs, map[]);
    CloseReads(ns, "Property");
    NameAttributeReads(ns, p.name);
    StartPropertyStep(st, ReadAttributes(ns, attrs), ns, p.name);
    var s1 := st.(depth := st.depth + 1, propertyNames := st.propertyNames + [p.name],
                  propertyContainers := st.propertyContainers + [[]], parsedValue := None);
    ExecOptionalValue(ns, s1, p.value);
    var s2 := s1.(parsedValue := p.value);
    ExecProperties(ns, s2, p.properties);
    var kids := RereadProperties(p.properties);
    var s3 := s2.(propertyContainers := AppendAllTop(s2.propertyContainers, kids),
                  parsedValue := if |p.properties| > 0 then None else s2.parsedValue);
    ExecThen(ns, s1, WriteOptionalValue(p.value), WriteProperties(p.properties), s2, s3);
    PushTopPop(st.propertyNames, p.name);
    PushedContainer(st.propertyContainers, kids);
    EndPropertyStep(s3);
    ExecElement(ns, st, open, WriteOptionalValue(p.value) + WriteProperties(p.properties), close,
                StartElement(PsfName("Property"), ReadAttributes(ns, attrs), ns), EndElement(PsfName("Property")),
                s1, s3, Continue(st.(propertyContainers := AppendTop(st.propertyContainers, RereadProperty(p)),
                                     parsedValue := None)));
  }

  /** Written properties are rebuilt in order; a non-empty run clears the pending value. */
  lemma {:induction false} ExecProperties(ns: Namespace, st: ParserState, ps: seq<Property>)
    requires PsfBound(ns) && PropertiesResolve(ns, ps)
    requires st.valueContext.None? && |st.propertyContainers| > 0
    ensures Exec(st, Read(ns, WriteProperties(ps))) ==
            Continue(st.(propertyContainers := AppendAllTop(st.propertyContainers, RereadProperties(ps)),
                         parsedValue := if |ps| > 0 then None else st.parsedValue))
    decreases ps, 0
  {
    hide *;
    PropertiesParts(ns, ps);
    if |ps| == 0 {
      ExecNothing(ns, st);
      AppendAllTopEmpty(st.propertyContainers);
    } else {
      ExecProperty(ns, st, ps[0]);
      var s1 := st.(propertyContainers := AppendTop(st.propertyContainers, RereadProperty(ps[0])), parsedValue := None);
      ExecProperties(ns, s1, ps[1..]);
      ExecThen(ns, st, WriteProperty(ps[0]), WriteProperties(ps[1..]), s1,
               s1.(propertyContainers := AppendAllTop(s1.propertyContainers, RereadProperties(ps[1..])),
                   parsedValue := if |ps[1..]| > 0 then None else s1.parsedValue));
      AppendAllTopPrepend(st.propertyContainers, RereadProperty(ps[0]), RereadProperties(ps[1..]));
    }
  }

  // ---------------------------------------------------------------------------
  // Scored properties
  // ---------------------------------------------------------------------------

  /** Every name, reference and value in a scored property, and below it, resolves. */
  predicate ScoredResolves(ns: Namespace, sp: ScoredProperty)
    decreases sp
  {
    && OptionalNameResolves(ns, sp.name)
    && OptionalNameResolves(ns, sp.parameterRef)
    && (sp.value.Some? ==> ValueResolves(ns, sp.value.value))
    && ScoredListResolves(ns, sp.scoredProperties)
    && PropertiesResolve(ns, sp.properties)
  }

  predicate ScoredListResolves(ns: Namespace, sps: seq<ScoredProperty>)
    decreases sps
  {
    |sps| == 0 || (ScoredResolves(ns, sps[0]) && ScoredListResolves(ns, sps[1..]))
  }

  lemma StartScoredStep(st: ParserState, attrs: seq<Attribute>, ns: Namespace, n: Option<OwnedName>)
    requires ParseNameAttribute(attrs, ns) == n
    ensures Step(st, StartElement(PsfName("ScoredProperty"), attrs, ns)) ==
            Continue(st.(depth := st.depth + 1, scoredPropertyNames := st.scoredPropertyNames + [n],
                         propertyContainers := st.propertyContainers + [[]],
                         scoredPropertyContainers := st.scoredPropertyContainers + [[]],
                         parsedValue := None, parameterRef := None))
  {
  }

  lemma EndScoredStep(st: ParserState)
    requires st.depth > 0 && |st.scoredPropertyNames| > 0 && |st.propertyContainers| > 0
    requires |st.scoredPropertyContainers| > 1
    ensures Step(st, EndElement(PsfName("ScoredProperty"))) ==
            Continue(st.(depth := st.depth - 1, scoredPropertyNames := Pop(st.scoredPropertyNames),
                         propertyContainers := Pop(st.propertyContainers),
                         scoredPropertyContainers := AppendTop(Pop(st.scoredPropertyContainers),
                           ScoredProperty(Top(st.scoredPropertyNames), st.parameterRef, st.parsedValue,
                                          Top(st.scoredPropertyContainers), Top(st.propertyContainers))),
                         parameterRef := None, parsedValue := None))
  {
  }

  lemma StartRefStep(st: ParserState, attrs: seq<Attribute>, ns: Namespace, n: OwnedName)
    requires ParseNameAttribute(attrs, ns) == Some(n)
    ensures Step(st, StartElement(PsfName("ParameterRef"), attrs, ns)) ==
            Continue(st.(depth := st.depth + 1, parameterRef := Some(n)))
  {
  }

  lemma EndRefStep(st: ParserState)
    requires st.depth > 0
    ensures Step(st, EndElement(PsfName("ParameterRef"))) == Continue(st.(depth := st.depth - 1))
  {
  }

  lemma RefParts(r: Option<OwnedName>)
    ensures r.None? ==> WriteParameterRef(r) == []
    ensures r.Some? ==>
              WriteParameterRef(r) ==
              [Open(PsfElement("ParameterRef"), NameAttribute(r.value), map[])] + [] + [Close(PsfElement("ParameterRef"))]
  {
  }

  lemma ExecParameterRef(ns: Namespace, st: ParserState, r: Option<OwnedName>)
    requires PsfBound(ns) && OptionalNameResolves(ns, r)
    requires st.parameterRef.None?
    ensures Exec(st, Read(ns, WriteParameterRef(r))) == Continue(st.(parameterRef := r))
  {
    hide *;
    RefParts(r);
    OptionalNameParts(ns, r);
    if r.None? {
      ExecNothing(ns, st);
    } else {
      var attrs := NameAttribute(r.value);
      OpenReads(ns, "ParameterRef", attrs, map[]);
      CloseReads(ns, "ParameterRef");
      NameAttributeReads(ns, r.value);
      StartRefStep(st, ReadAttributes(ns, attrs), ns, r.value);
      var s1 := st.(depth := st.depth + 1, parameterRef := r);
      ExecNothing(ns, s1);
      EndRefStep(s1);
      ExecElement(ns, st, Open(PsfElement("ParameterRef"), attrs, map[]), [], Close(PsfElement("ParameterRef")),
                  StartElement(PsfName("ParameterRef"), ReadAttributes(ns, attrs), ns),
                  EndElement(PsfName("ParameterRef")), s1, s1, Continue(st.(parameterRef := r)));
    }
  }

  lemma ScoredParts(ns: Namespace, sp: ScoredProperty)
    requires ScoredResolves(ns, sp)
    ensures OptionalNameResolves(ns, sp.name) && OptionalNameResolves(ns, sp.parameterRef)
    ensures sp.value.Some? ==> ValueResolves(ns, sp.value.value)
    ensures ScoredListResolves(ns, sp.scoredProperties) && PropertiesResolve(ns, sp.properties)
    ensures RereadScored(sp) ==
      ScoredProperty(sp.name, if |sp.scoredProperties| > 0 then None else sp.parameterRef,
                     if |sp.scoredProperties| > 0 || |sp.properties| > 0 then None else sp.value,
                     RereadScoredList(sp.scoredProperties), RereadProperties(sp.properties))
  {
  }

  lemma ScoredShape(sp: ScoredProperty)
    ensures WriteScored(sp) ==
      [StartWithOptionalName(PsfElement("ScoredProperty"), sp.name)]
      + (WriteParameterRef(sp.parameterRef) + WriteOptionalValue(sp.value)
         + WriteScoredList(sp.scoredProperties) + WriteProperties(sp.properties))
      + [Close(PsfElement("ScoredProperty"))]
  {
    var o, a, b := [StartWithOptionalName(PsfElement("ScoredProperty"), sp.name)], WriteParameterRef(sp.parameterRef), WriteOptionalValue(sp.value);
    var c, d, e := WriteScoredList(sp.scoredProperties), WriteProperties(sp.properties), [Close(PsfElement("ScoredProperty"))];
    assert WriteScored(sp) == o + a + b + c + d + e;
    hide *;
    ConcatRegroup(o, a, b, c, d, e);
  }

  /** Regrouping concatenations around their middle parts. */
  lemma Regroup4<T>(o: seq<T>, a: seq<T>, b: seq<T>, e: seq<T>)
    ensures o + a + b + e == o + (a + b) + e
  {
  }

  lemma Regroup5<T>(o: seq<T>, a: seq<T>, b: seq<T>, c: seq<T>, e: seq<T>)
    ensures o + a + b + c + e == o + (a + b + c) + e
  {
  }

  lemma ConcatRegroup<T>(o: seq<T>, a: seq<T>, b: seq<T>, c: seq<T>, d: seq<T>, e: seq<T>)
    ensures o + a + b + c + d + e == o + (a + b + c + d) + e
  {
  }

  lemma ScoredListParts(ns: Namespace, sps: seq<ScoredProperty>)
    requires ScoredListResolves(ns, sps)
    ensures |sps| == 0 ==> WriteScoredList(sps) == []
    ensures |sps| > 0 ==> ScoredResolves(ns, sps[0]) && ScoredListResolves(ns, sps[1..])
    ensures |sps| > 0 ==> WriteScoredList(sps) == WriteScored(sps[0]) + WriteScoredList(sps[1..])
    ensures |sps| == 0 ==> RereadScoredList(sps) == []
    ensures |sps| > 0 ==> RereadScoredList(sps) == [RereadScored(sps[0])] + RereadScoredList(sps[1..])
  {
  }

  /**
   * A written scored property is rebuilt as `RereadScored` says; its end
   * tag leaves no value and no reference pending.
   */
  lemma {:induction false} ExecScored(ns: Namespace, st: ParserState, sp: ScoredProperty)
    requires PsfBound(ns) && ScoredResolves(ns, sp)
    requires st.valueContext.None? && |st.scoredPropertyContainers| > 0
    ensures Exec(st, Read(ns, WriteScored(sp))) ==
            Continue(st.(scoredPropertyContainers := AppendTop(st.scoredPropertyContainers, RereadScored(sp)),
                         parsedValue := None, parameterRef := None))
    decreases sp, 1
  {
    hide *;
    ScoredParts(ns, sp);
    ScoredShape(sp);
    var open := StartWithOptionalName(PsfElement("ScoredProperty"), sp.name);
    OptionalNameAttributeReads(ns, PsfElement("ScoredProperty"), sp.name);
    OpenReads(ns, "ScoredProperty", open.attributes, map[]);
    CloseReads(ns, "ScoredProperty");
    StartScoredStep(st, ReadAttributes(ns, open.attributes), ns, sp.name);
    var s1 := st.(depth := st.depth + 1, scoredPropertyNames := st.scoredPropertyNames + [sp.name],
                  propertyContainers := st.propertyContainers + [[]],
                  scoredPropertyContainers := st.scoredPropertyContainers + [[]],
                  parsedValue := None, parameterRef := None);
    ExecParameterRef(ns, s1, sp.parameterRef);
    var s2 := s1.(parameterRef := sp.parameterRef);
    ExecOptionalValue(ns, s2, sp.value);
    var s3 := s2.(parsedValue := sp.value);
    ExecScoredList(ns, s3, sp.scoredProperties);
    var scored := RereadScoredList(sp.scoredProperties);
    var s4 := s3.(scoredPropertyContainers := AppendAllTop(s3.scoredPropertyContainers, scored),
                  parsedValue := if |sp.scoredProperties| > 0 then None else s3.parsedValue,
                  parameterRef := if |sp.scoredProperties| > 0 then None else s3.parameterRef);
    ExecProperties(ns, s4, sp.properties);
    var kids := RereadProperties(sp.properties);
    var s5 := s4.(propertyContainers := AppendAllTop(s4.propertyContainers, kids),
                  parsedValue := if |sp.properties| > 0 then None else s4.parsedValue);
    ExecThen(ns, s1, WriteParameterRef(sp.parameterRef), WriteOptionalValue(sp.value), s2, s3);
    ExecThen(ns, s1, WriteParameterRef(sp.parameterRef) + WriteOptionalValue(sp.value),
             WriteScoredList(sp.scoredProperties), s3, s4);
    ExecThen(ns, s1, WriteParameterRef(sp.parameterRef) + WriteOptionalValue(sp.value) + WriteScoredList(sp.scoredProperties),
             WriteProperties(sp.properties), s4, s5);
    PushTopPop(st.scoredPropertyNames, sp.name);
    PushedContainer(st.propertyContainers, kids);
    PushedContainer(st.scoredPropertyContainers, scored);
    EndScoredStep(s5);
    ExecElement(ns, st, open,
                WriteParameterRef(sp.parameterRef) + WriteOptionalValue(sp.value)
                + WriteScoredList(sp.scoredProperties) + WriteProperties(sp.properties),
                Close(PsfElement("ScoredProperty")),
                StartElement(PsfName("ScoredProperty"), ReadAttributes(ns, open.attributes), ns),
                EndElement(PsfName("ScoredProperty")),
                s1, s5, Continue(st.(scoredPropertyContainers := AppendTop(st.scoredPropertyContainers, RereadScored(sp)),
                                     parsedValue := None, parameterRef := None)));
  }

  /** Written scored properties are rebuilt in order; a non-empty run clears the pending value and reference. */
  lemma {:induction false} ExecScoredList(ns: Namespace, st: ParserState, sps: seq<ScoredProperty>)
    requires PsfBound(ns) && ScoredListResolves(ns, sps)
    requires st.valueContext.None? && |st.scoredPropertyContainers| > 0
    ensures Exec(st, Read(ns, WriteScoredList(sps))) ==
            Continue(st.(scoredPropertyContainers := AppendAllTop(st.scoredPropertyContainers, RereadScoredList(sps)),
                         parsedValue := if |sps| > 0 then None else st.parsedValue,
                         parameterRef := if |sps| > 0 then None else st.parameterRef))
    decreases sps, 0
  {
    hide *;
    ScoredListParts(ns, sps);
    if |sps| == 0 {
      ExecNothing(ns, st);
      AppendAllTopEmpty(st.scoredPropertyContainers);
    } else {
      ExecScored(ns, st, sps[0]);
      var s1 := st.(scoredPropertyContainers := AppendTop(st.scoredPropertyContainers, RereadScored(sps[0])),
                    parsedValue := None, parameterRef := None);
      ExecScoredList(ns, s1, sps[1..]);
      ExecThen(ns, st, WriteScored(sps[0]), WriteScoredList(sps[1..]), s1,
               s1.(scoredPropertyContainers := AppendAllTop(s1.scoredPropertyContainers, RereadScoredList(sps[1..])),
                   parsedValue := if |sps[1..]| > 0 then None else s1.parsedValue,
                   parameterRef := if |sps[1..]| > 0 then None else s1.parameterRef));
      AppendAllTopPrepend(st.scoredPropertyContainers, RereadScored(sps[0]), RereadScoredList(sps[1..]));
    }
  }

  // ---------------------------------------------------------------------------
  // Feature options
  // ---------------------------------------------------------------------------

  predicate OptionResolves(ns: Namespace, o: PrintFeatureOption)
  {
    OptionalNameResolves(ns, o.name) && ScoredListResolves(ns, o.scoredProperties) && PropertiesResolve(ns, o.properties)
  }

  predicate OptionsResolve(ns: Namespace, os: seq<PrintFeatureOption>)
  {
    forall i :: 0 <= i < |os| ==> OptionResolves(ns, os[i])
  }

  lemma StartOptionStep(st: ParserState, attrs: seq<Attribute>, ns: Namespace, n: Option<OwnedName>)
    requires ParseNameAttribute(attrs, ns) == n
    ensures Step(st, StartElement(PsfName("Option"), attrs, ns)) ==
            Continue(st.(depth := st.depth + 1, optionName := n,
                         propertyContainers := st.propertyContainers + [[]],
                         scoredPropertyContainers := st.scoredPropertyContainers + [[]]))
  {
  }

  lemma EndOptionStep(st: ParserState)
    requires st.depth > 0 && |st.propertyContainers| > 0 && |st.scoredPropertyContainers| > 0
    requires |st.optionContainers| > 0
    ensures Step(st, EndElement(PsfName("Option"))) ==
            Continue(st.(depth := st.depth - 1, optionName := None,
                         propertyContainers := Pop(st.propertyContainers),
                         scoredPropertyContainers := Pop(st.scoredPropertyContainers),
                         optionContainers := AppendTop(st.optionContainers,
                           PrintFeatureOption(st.optionName, Top(st.scoredPropertyContainers), Top(st.propertyContainers)))))
  {
  }

  lemma OptionShape(o: PrintFeatureOption)
    ensures WriteOption(o) ==
      [StartWithOptionalName(PsfElement("Option"), o.name)]
      + (WriteScoredList(o.scoredProperties) + WriteProperties(o.properties))
      + [Close(PsfElement("Option"))]
  {
    var h, a, b, e := [StartWithOptionalName(PsfElement("Option"), o.name)], WriteScoredList(o.scoredProperties),
                      WriteProperties(o.properties), [Close(PsfElement("Option"))];
    assert WriteOption(o) == h + a + b + e;
    hide *;
    Regroup4(h, a, b, e);
  }

  lemma OptionsParts(ns: Namespace, os: seq<PrintFeatureOption>)
    requires OptionsResolve(ns, os)
    ensures |os| == 0 ==> WriteOptions(os) == []
    ensures |os| > 0 ==> OptionResolves(ns, os[0]) && OptionsResolve(ns, os[1..])
    ensures |os| > 0 ==> WriteOptions(os) == WriteOption(os[0]) + WriteOptions(os[1..])
    ensures |os| == 0 ==> RereadOptions(os) == []
    ensures |os| > 0 ==> RereadOptions(os) == [RereadOption(os[0])] + RereadOptions(os[1..])
  {
  }

  lemma ExecOption(ns: Namespace, st: ParserState, o: PrintFeatureOption)
    requires PsfBound(ns) && OptionResolves(ns, o)
    requires st.valueContext.None? && st.parsedValue.None? && st.parameterRef.None? && st.optionName.None?
    requires |st.optionContainers| > 0
    ensures Exec(st, Read(ns, WriteOption(o))) ==
            Continue(st.(optionContainers := AppendTop(st.optionContainers, RereadOption(o))))
  {
    assert OptionalNameResolves(ns, o.name) && ScoredListResolves(ns, o.scoredProperties) && PropertiesResolve(ns, o.properties);
    assert RereadOption(o) == PrintFeatureOption(o.name, RereadScoredList(o.scoredProperties), RereadProperties(o.properties));
    hide *;
    OptionShape(o);
    var open := StartWithOptionalName(PsfElement("Option"), o.name);
    OptionalNameAttributeReads(ns, PsfElement("Option"), o.name);
    OpenReads(ns, "Option", open.attributes, map[]);
    CloseReads(ns, "Option");
    StartOptionStep(st, ReadAttributes(ns, open.attributes), ns, o.name);
    var s1 := st.(depth := st.depth + 1, optionName := o.name,
                  propertyContainers := st.propertyContainers + [[]],
                  scoredPropertyContainers := st.scoredPropertyContainers + [[]]);
    ExecScoredList(ns, s1, o.scoredProperties);
    var scored := RereadScoredList(o.scoredProperties);
    var s2 := s1.(scoredPropertyContainers := AppendAllTop(s1.scoredPropertyContainers, scored));
    assert s2 == s1.(scoredPropertyContainers := AppendAllTop(s1.scoredPropertyContainers, scored),
                     parsedValue := if |o.scoredProperties| > 0 then None else s1.parsedValue,
                     parameterRef := if |o.scoredProperties| > 0 then None else s1.parameterRef);
    ExecProperties(ns, s2, o.properties);
    var kids := RereadProperties(o.properties);
    var s3 := s2.(propertyContainers := AppendAllTop(s2.propertyContainers, kids));
    assert s3 == s2.(propertyContainers := AppendAllTop(s2.propertyContainers, kids),
                     parsedValue := if |o.properties| > 0 then None else s2.parsedValue);
    ExecThen(ns, s1, WriteScoredList(o.scoredProperties), WriteProperties(o.properties), s2, s3);
    PushedContainer(st.propertyContainers, kids);
    PushedContainer(st.scoredPropertyContainers, scored);
    EndOptionStep(s3);
    ExecElement(ns, st, open, WriteScoredList(o.scoredProperties) + WriteProperties(o.properties),
                Close(PsfElement("Option")),
                StartElement(PsfName("Option"), ReadAttributes(ns, open.attributes), ns),
                EndElement(PsfName("Option")),
                s1, s3, Continue(st.(optionContainers := AppendTop(st.optionContainers, RereadOption(o)))));
  }

  lemma {:induction false} ExecOptions(ns: Namespace, st: ParserState, os: seq<PrintFeatureOption>)
    requires PsfBound(ns) && OptionsResolve(ns, os)
    requires st.valueContext.None? && st.parsedValue.None? && st.parameterRef.None? && st.optionName.None?
    requires |st.optionContainers| > 0
    ensures Exec(st, Read(ns, WriteOptions(os))) ==
            Continue(st.(optionContainers := AppendAllTop(st.optionContainers, RereadOptions(os))))
    decreases |os|
  {
    hide *;
    OptionsParts(ns, os);
    if |os| == 0 {
      ExecNothing(ns, st);
      AppendAllTopEmpty(st.optionContainers);
    } else {
      ExecOption(ns, st, os[0]);
      var s1 := st.(optionContainers := AppendTop(st.optionContainers, RereadOption(os[0])));
      ExecOptions(ns, s1, os[1..]);
      ExecThen(ns, st, WriteOption(os[0]), WriteOptions(os[1..]), s1,
               s1.(optionContainers := AppendAllTop(s1.optionContainers, RereadOptions(os[1..]))));
      AppendAllTopPrepend(st.optionContainers, RereadOption(os[0]), RereadOptions(os[1..]));
    }
  }

  // ---------------------------------------------------------------------------
  // Features
  // ---------------------------------------------------------------------------

  predicate FeatureResolves(ns: Namespace, f: PrintFeature)
    decreases f
  {
    NameResolves(ns, f.name) && OptionsResolve(ns, f.options) && PropertiesResolve(ns, f.properties) && FeaturesResolve(ns, f.features)
  }

  predicate FeaturesResolve(ns: Namespace, fs: seq<PrintFeature>)
    decreases fs
  {
    |fs| == 0 || (FeatureResolves(ns, fs[0]) && FeaturesResolve(ns, fs[1..]))
  }

  lemma StartFeatureStep(st: ParserState, attrs: seq<Attribute>, ns: Namespace, n: OwnedName)
    requires ParseNameAttribute(attrs, ns) == Some(n)
    ensures Step(st, StartElement(PsfName("Feature"), attrs, ns)) ==
            Continue(st.(depth := st.depth + 1, featureNames := st.featureNames + [n],
                         featureContainers := st.featureContainers + [[]],
                         propertyContainers := st.propertyContainers + [[]],
                         optionContainers := st.optionContainers + [[]]))
  {
  }

  lemma EndFeatureStep(st: ParserState)
    requires st.depth > 0 && |st.featureNames| > 0 && |st.featureContainers| > 1
    requires |st.propertyContainers| > 0 && |st.optionContainers| > 0
    ensures Step(st, EndElement(PsfName("Feature"))) ==
            Continue(st.(depth := st.depth - 1, featureNames := Pop(st.featureNames),
                         featureContainers := AppendTop(Pop(st.featureContainers),
                           PrintFeature(Top(st.featureNames), Top(st.propertyContainers),
                                        Top(st.optionContainers), Top(st.featureContainers))),
                         propertyContainers := Pop(st.propertyContainers),
                         optionContainers := Pop(st.optionContainers)))
  {
  }

  lemma FeatureParts(ns: Namespace, f: PrintFeature)
    requires FeatureResolves(ns, f)
    ensures NameResolves(ns, f.name) && OptionsResolve(ns, f.options)
    ensures PropertiesResolve(ns, f.properties) && FeaturesResolve(ns, f.features)
    ensures RereadFeature(f) ==
      PrintFeature(f.name, RereadProperties(f.properties), RereadOptions(f.options), RereadFeatures(f.features))
  {
  }

  lemma FeatureShape(f: PrintFeature)
    ensures WriteFeature(f) ==
      [Open(PsfElement("Feature"), NameAttribute(f.name), map[])]
      + (WriteOptions(f.options) + WriteProperties(f.properties) + WriteFeatures(f.features))
      + [Close(PsfElement("Feature"))]
  {
    var h, a, b := [Open(PsfElement("Feature"), NameAttribute(f.name), map[])], WriteOptions(f.options), WriteProperties(f.properties);
    var c, e := WriteFeatures(f.features), [Close(PsfElement("Feature"))];
    assert WriteFeature(f) == h + a + b + c + e;
    hide *;
    Regroup5(h, a, b, c, e);
  }

  lemma FeaturesParts(ns: Namespace, fs: seq<PrintFeature>)
    requires FeaturesResolve(ns, fs)
    ensures |fs| == 0 ==> WriteFeatures(fs) == []
    ensures |fs| > 0 ==> FeatureResolves(ns, fs[0]) && FeaturesResolve(ns, fs[1..])
    ensures |fs| > 0 ==> WriteFeatures(fs) == WriteFeature(fs[0]) + WriteFeatures(fs[1..])
    ensures |fs| == 0 ==> RereadFeatures(fs) == []
    ensures |fs| > 0 ==> RereadFeatures(fs) == [RereadFeature(fs[0])] + RereadFeatures(fs[1..])
  {
  }

  lemma {:induction false} ExecFeature(ns: Namespace, st: ParserState, f: PrintFeature)
    requires PsfBound(ns) && FeatureResolves(ns, f)
    requires st.valueContext.None? && st.parsedValue.None? && st.parameterRef.None? && st.optionName.None?
    requires |st.featureContainers| > 0
    ensures Exec(st, Read(ns, WriteFeature(f))) ==
            Continue(st.(featureContainers := AppendTop(st.featureContainers, RereadFeature(f))))
    decreases f, 1
  {
    hide *;
    FeatureParts(ns, f);
    FeatureShape(f);
    var attrs := NameAttribute(f.name);
    var open := Open(PsfElement("Feature"), attrs, map[]);
    var close := Close(PsfElement("Feature"));
    OpenReads(ns, "Feature", attrs, map[]);
    CloseReads(ns, "Feature");
    NameAttributeReads(ns, f.name);
    StartFeatureStep(st, ReadAttributes(ns, attrs), ns, f.name);
    var s1 := st.(depth := st.depth + 1, featureNames := st.featureNames + [f.name],
                  featureContainers := st.featureContainers + [[]],
                  propertyContainers := st.propertyContainers + [[]],
                  optionContainers := st.optionContainers + [[]]);
    ExecOptions(ns, s1, f.options);
    var options := RereadOptions(f.options);
    var s2 := s1.(optionContainers := AppendAllTop(s1.optionContainers, options));
    ExecProperties(ns, s2, f.properties);
    var kids := RereadProperties(f.properties);
    var s3 := s2.(propertyContainers := AppendAllTop(s2.propertyContainers, kids));
    assert s3 == s2.(propertyContainers := AppendAllTop(s2.propertyContainers, kids),
                     parsedValue := if |f.properties| > 0 then None else s2.parsedValue);
    ExecFeatures(ns, s3, f.features);
    var subs := RereadFeatures(f.features);
    var s4 := s3.(featureContainers := AppendAllTop(s3.featureContainers, subs));
    ExecThen(ns, s1, WriteOptions(f.options), WriteProperties(f.properties), s2, s3);
    ExecThen(ns, s1, WriteOptions(f.options) + WriteProperties(f.properties), WriteFeatures(f.features), s3, s4);
    PushTopPop(st.featureNames, f.name);
    PushedContainer(st.featureContainers, subs);
    PushedContainer(st.propertyContainers, kids);
    PushedContainer(st.optionContainers, options);
    EndFeatureStep(s4);
    ExecElement(ns, st, open, WriteOptions(f.options) + WriteProperties(f.properties) + WriteFeatures(f.features), close,
                StartElement(PsfName("Feature"), ReadAttributes(ns, attrs), ns), EndElement(PsfName("Feature")),
                s1, s4, Continue(st.(featureContainers := AppendTop(st.featureContainers, RereadFeature(f)))));
  }

  lemma {:induction false} ExecFeatures(ns: Namespace, st: ParserState, fs: seq<PrintFeature>)
    requires PsfBound(ns) && FeaturesResolve(ns, fs)
    requires st.valueContext.None? && st.parsedValue.None? && st.parameterRef.None? && st.optionName.None?
    requires |st.featureContainers| > 0
    ensures Exec(st, Read(ns, WriteFeatures(fs))) ==
            Continue(st.(featureContainers := AppendAllTop(st.featureContainers, RereadFeatures(fs))))
    decreases fs, 0
  {
    hide *;
    FeaturesParts(ns, fs);
    if |fs| == 0 {
      ExecNothing(ns, st);
      AppendAllTopEmpty(st.featureContainers);
    } else {
      ExecFeature(ns, st, fs[0]);
      var s1 := st.(featureContainers := AppendTop(st.featureContainers, RereadFeature(fs[0])));
      ExecFeatures(ns, s1, fs[1..]);
      ExecThen(ns, st, WriteFeature(fs[0]), WriteFeatures(fs[1..]), s1,
               s1.(featureContainers := AppendAllTop(s1.featureContainers, RereadFeatures(fs[1..]))));
      AppendAllTopPrepend(st.featureContainers, RereadFeature(fs[0]), RereadFeatures(fs[1..]));
    }
  }

  // ---------------------------------------------------------------------------
  // Parameter definitions and initialisations
  // ---------------------------------------------------------------------------

  predicate DefsResolve(ns: Namespace, ds: seq<ParameterDef>)
  {
    forall i :: 0 <= i < |ds| ==> NameResolves(ns, ds[i].name) && PropertiesResolve(ns, ds[i].properties)
  }

  predicate InitsResolve(ns: Namespace, inits: seq<ParameterInit>)
  {
    forall i :: 0 <= i < |inits| ==> NameResolves(ns, inits[i].name) && ValueResolves(ns, inits[i].value)
  }

  lemma StartDefStep(st: ParserState, attrs: seq<Attribute>, ns: Namespace, n: OwnedName)
    requires ParseNameAttribute(attrs, ns) == Some(n)
    ensures Step(st, StartElement(PsfName("ParameterDef"), attrs, ns)) ==
            Continue(st.(depth := st.depth + 1, parameterDefName := Some(n),
                         propertyContainers := st.propertyContainers + [[]]))
  {
  }

  lemma EndDefStep(st: ParserState)
    requires st.depth > 0 && st.parameterDefName.Some? && |st.propertyContainers| > 0
    requires st.parameterDefContainer.Some?
    ensures Step(st, EndElement(PsfName("ParameterDef"))) ==
            Continue(st.(depth := st.depth - 1, parameterDefName := None,
                         propertyContainers := Pop(st.propertyContainers),
                         parameterDefContainer := Some(st.parameterDefContainer.value
                           + [ParameterDef(st.parameterDefName.value, Top(st.propertyContainers))])))
  {
  }

  lemma DefShape(d: ParameterDef)
    ensures WriteDef(d) ==
      [Open(PsfElement("ParameterDef"), NameAttribute(d.name), map[])]
      + WriteProperties(d.properties)
      + [Close(PsfElement("ParameterDef"))]
  {
  }

  lemma DefsParts(ns: Namespace, ds: seq<ParameterDef>)
    requires DefsResolve(ns, ds)
    ensures |ds| == 0 ==> WriteDefs(ds) == []
    ensures |ds| > 0 ==> NameResolves(ns, ds[0].name) && PropertiesResolve(ns, ds[0].properties) && DefsResolve(ns, ds[1..])
    ensures |ds| > 0 ==> WriteDefs(ds) == WriteDef(ds[0]) + WriteDefs(ds[1..])
    ensures |ds| == 0 ==> RereadDefs(ds) == []
    ensures |ds| > 0 ==>
              RereadDefs(ds) == [ParameterDef(ds[0].name, RereadProperties(ds[0].properties))] + RereadDefs(ds[1..])
  {
  }

  lemma ExecDef(ns: Namespace, st: ParserState, d: ParameterDef)
    requires PsfBound(ns) && NameResolves(ns, d.name) && PropertiesResolve(ns, d.properties)
    requires st.valueContext.None? && st.parsedValue.None?
    requires st.parameterDefName.None? && st.parameterDefContainer.Some?
    ensures Exec(st, Read(ns, WriteDef(d))) ==
            Continue(st.(parameterDefContainer :=
              Some(st.parameterDefContainer.value + [ParameterDef(d.name, RereadProperties(d.properties))])))
  {
    hide *;
    DefShape(d);
    var attrs := NameAttribute(d.name);
    var open := Open(PsfElement("ParameterDef"), attrs, map[]);
    var close := Close(PsfElement("ParameterDef"));
    OpenReads(ns, "ParameterDef", attrs, map[]);
    CloseReads(ns, "ParameterDef");
    NameAttributeReads(ns, d.name);
    StartDefStep(st, ReadAttributes(ns, attrs), ns, d.name);
    var s1 := st.(depth := st.depth + 1, parameterDefName := Some(d.name),
                  propertyContainers := st.propertyContainers + [[]]);
    ExecProperties(ns, s1, d.properties);
    var kids := RereadProperties(d.properties);
    var s2 := s1.(propertyContainers := AppendAllTop(s1.propertyContainers, kids));
    assert s2 == s1.(propertyContainers := AppendAllTop(s1.propertyContainers, kids),
                     parsedValue := if |d.properties| > 0 then None else s1.parsedValue);
    PushedContainer(st.propertyContainers, kids);
    EndDefStep(s2);
    ExecElement(ns, st, open, WriteProperties(d.properties), close,
                StartElement(PsfName("ParameterDef"), ReadAttributes(ns, attrs), ns), EndElement(PsfName("ParameterDef")),
                s1, s2, Continue(st.(parameterDefContainer :=
                  Some(st.parameterDefContainer.value + [ParameterDef(d.name, kids)]))));
  }

  lemma {:induction false} ExecDefs(ns: Namespace, st: ParserState, ds: seq<ParameterDef>)
    requires PsfBound(ns) && DefsResolve(ns, ds)
    requires st.valueContext.None? && st.parsedValue.None?
    requires st.parameterDefName.None? && st.parameterDefContainer.Some?
    ensures Exec(st, Read(ns, WriteDefs(ds))) ==
            Continue(st.(parameterDefContainer := Some(st.parameterDefContainer.value + RereadDefs(ds))))
    decreases |ds|
  {
    hide *;
    DefsParts(ns, ds);
    if |ds| == 0 {
      ExecNothing(ns, st);
      assert st.parameterDefContainer.value + [] == st.parameterDefContainer.value;
    } else {
      var first := ParameterDef(ds[0].name, RereadProperties(ds[0].properties));
      ExecDef(ns, st, ds[0]);
      var s1 := st.(parameterDefContainer := Some(st.parameterDefContainer.value + [first]));
      ExecDefs(ns, s1, ds[1..]);
      assert st.parameterDefContainer.value + [first] + RereadDefs(ds[1..])
          == st.parameterDefContainer.value + ([first] + RereadDefs(ds[1..]));
      ExecThen(ns, st, WriteDef(ds[0]), WriteDefs(ds[1..]), s1,
               st.(parameterDefContainer := Some(st.parameterDefContainer.value + RereadDefs(ds))));
    }
  }

  lemma StartInitStep(st: ParserState, attrs: seq<Attribute>, ns: Namespace, n: OwnedName)
    requires ParseNameAttribute(attrs, ns) == Some(n)
    ensures Step(st, StartElement(PsfName("ParameterInit"), attrs, ns)) ==
            Continue(st.(depth := st.depth + 1, parameterInitName := Some(n)))
  {
  }

  lemma EndInitStep(st: ParserState)
    requires st.depth > 0 && st.parameterInitName.Some? && st.parsedValue.Some?
    requires st.parameterInitContainer.Some?
    ensures Step(st, EndElement(PsfName("ParameterInit"))) ==
            Continue(st.(depth := st.depth - 1, parameterInitName := None, parsedValue := None,
                         parameterInitContainer := Some(st.parameterInitContainer.value
                           + [ParameterInit(st.parameterInitName.value, st.parsedValue.value)])))
  {
  }

  lemma InitShape(i: ParameterInit)
    ensures WriteInit(i) ==
      [Open(PsfElement("ParameterInit"), NameAttribute(i.name), map[])]
      + WriteValue(i.value)
      + [Close(PsfElement("ParameterInit"))]
  {
  }

  lemma InitsParts(ns: Namespace, inits: seq<ParameterInit>)
    requires InitsResolve(ns, inits)
    ensures |inits| == 0 ==> WriteInits(inits) == []
    ensures |inits| > 0 ==> NameResolves(ns, inits[0].name) && ValueResolves(ns, inits[0].value) && InitsResolve(ns, inits[1..])
    ensures |inits| > 0 ==> WriteInits(inits) == WriteInit(inits[0]) + WriteInits(inits[1..])
  {
    hide ValueResolves, NameResolves, WriteInit;
    if |inits| > 0 {
      forall k | 0 <= k < |inits[1..]|
        ensures NameResolves(ns, inits[1..][k].name) && ValueResolves(ns, inits[1..][k].value)
      {
        assert inits[1..][k] == inits[k + 1];
      }
    }
  }

  lemma ExecInit(ns: Namespace, st: ParserState, i: ParameterInit)
    requires PsfBound(ns) && NameResolves(ns, i.name) && ValueResolves(ns, i.value)
    requires st.valueContext.None? && st.parsedValue.None?
    requires st.parameterInitName.None? && st.parameterInitContainer.Some?
    ensures Exec(st, Read(ns, WriteInit(i))) ==
            Continue(st.(parameterInitContainer := Some(st.parameterInitContainer.value + [i])))
  {
    hide *;
    InitShape(i);
    var attrs := NameAttribute(i.name);
    var open := Open(PsfElement("ParameterInit"), attrs, map[]);
    var close := Close(PsfElement("ParameterInit"));
    OpenReads(ns, "ParameterInit", attrs, map[]);
    CloseReads(ns, "ParameterInit");
    NameAttributeReads(ns, i.name);
    StartInitStep(st, ReadAttributes(ns, attrs), ns, i.name);
    var s1 := st.(depth := st.depth + 1, parameterInitName := Some(i.name));
    ExecValue(ns, s1, i.value);
    var s2 := s1.(parsedValue := Some(i.value));
    EndInitStep(s2);
    ExecElement(ns, st, open, WriteValue(i.value), close,
                StartElement(PsfName("ParameterInit"), ReadAttributes(ns, attrs), ns), EndElement(PsfName("ParameterInit")),
                s1, s2, Continue(st.(parameterInitContainer := Some(st.parameterInitContainer.value + [i]))));
  }

  lemma {:induction false} ExecInits(ns: Namespace, st: ParserState, inits: seq<ParameterInit>)
    requires PsfBound(ns) && InitsResolve(ns, inits)
    requires st.valueContext.None? && st.parsedValue.None?
    requires st.parameterInitName.None? && st.parameterInitContainer.Some?
    ensures Exec(st, Read(ns, WriteInits(inits))) ==
            Continue(st.(parameterInitContainer := Some(st.parameterInitContainer.value + inits)))
    decreases |inits|
  {
    hide *;
    InitsParts(ns, inits);
    if |inits| == 0 {
      ExecNothing(ns, st);
      assert st.parameterInitContainer.value + inits == st.parameterInitContainer.value;
    } else {
      ExecInit(ns, st, inits[0]);
      var s1 := st.(parameterInitContainer := Some(st.parameterInitContainer.value + [inits[0]]));
      ExecInits(ns, s1, inits[1..]);
      assert st.parameterInitContainer.value + [inits[0]] + inits[1..] == st.parameterInitContainer.value + inits;
      ExecThen(ns, st, WriteInit(inits[0]), WriteInits(inits[1..]), s1,
               st.(parameterInitContainer := Some(st.parameterInitContainer.value + inits)));
    }
  }

  // ---------------------------------------------------------------------------
  // Whole documents
  // ---------------------------------------------------------------------------

  /**
   * What a document needs to come back unchanged: every name in it, and
   * every qualified name inside a value, resolves through the namespace
   * table the writer declares on the root; every value's text survives the
   * reader's whitespace handling; and the value/children restrictions of
   * `PropertyResolves` and `ScoredResolves` hold throughout.
   */
  predicate DocumentResolves(d: PrintSchemaDocument)
  {
    var ns := DocumentTable(d);
    match d
    case PrintCapabilities(c) => PropertiesResolve(ns, c.properties) && DefsResolve(ns, c.parameterDefs) && FeaturesResolve(ns, c.features)
    case PrintTicket(t) => PropertiesResolve(ns, t.properties) && InitsResolve(ns, t.parameterInits) && FeaturesResolve(ns, t.features)
  }

  lemma StartCapabilitiesStep(attrs: seq<Attribute>, ns: Namespace)
    ensures Step(Initial, StartElement(PsfName("PrintCapabilities"), attrs, ns)) ==
            Continue(Initial.(depth := 1, featureContainers := [[]], propertyContainers := [[]],
                              parameterDefContainer := Some([])))
  {
  }

  lemma StartTicketStep(attrs: seq<Attribute>, ns: Namespace)
    ensures Step(Initial, StartElement(PsfName("PrintTicket"), attrs, ns)) ==
            Continue(Initial.(depth := 1, featureContainers := [[]], propertyContainers := [[]],
                              parameterInitContainer := Some([])))
  {
  }

  lemma CapabilitiesShape(c: PrintCapabilitiesDocument)
    ensures ToXml(PrintCapabilities(c)) ==
      [Open(PsfElement("PrintCapabilities"), VersionAttribute, DocumentTable(PrintCapabilities(c)))]
      + (WriteProperties(c.properties) + WriteDefs(c.parameterDefs) + WriteFeatures(c.features))
      + [Close(PsfElement("PrintCapabilities"))]
  {
    hide DocumentTable;
    var h := [Open(PsfElement("PrintCapabilities"), VersionAttribute, DocumentTable(PrintCapabilities(c)))];
    var a, b, f, e := WriteProperties(c.properties), WriteDefs(c.parameterDefs), WriteFeatures(c.features),
                      [Close(PsfElement("PrintCapabilities"))];
    assert ToXml(PrintCapabilities(c)) == h + a + b + f + e;
    hide *;
    Regroup5(h, a, b, f, e);
  }

  lemma TicketShape(t: PrintTicketDocument)
    ensures ToXml(PrintTicket(t)) ==
      [Open(PsfElement("PrintTicket"), VersionAttribute, DocumentTable(PrintTicket(t)))]
      + (WriteProperties(t.properties) + WriteInits(t.parameterInits) + WriteFeatures(t.features))
      + [Close(PsfElement("PrintTicket"))]
  {
    hide DocumentTable;
    var h := [Open(PsfElement("PrintTicket"), VersionAttribute, DocumentTable(PrintTicket(t)))];
    var a, b, f, e := WriteProperties(t.properties), WriteInits(t.parameterInits), WriteFeatures(t.features),
                      [Close(PsfElement("PrintTicket"))];
    assert ToXml(PrintTicket(t)) == h + a + b + f + e;
    hide *;
    Regroup5(h, a, b, f, e);
  }

  lemma DocumentParts(d: PrintSchemaDocument)
    requires DocumentResolves(d)
    ensures PsfBound(DocumentTable(d))
    ensures d.PrintCapabilities? ==>
      && PropertiesResolve(DocumentTable(d), d.capabilities.properties)
      && DefsResolve(DocumentTable(d), d.capabilities.parameterDefs)
      && FeaturesResolve(DocumentTable(d), d.capabilities.features)
    ensures d.PrintTicket? ==>
      && PropertiesResolve(DocumentTable(d), d.ticket.properties)
      && InitsResolve(DocumentTable(d), d.ticket.parameterInits)
      && FeaturesResolve(DocumentTable(d), d.ticket.features)
  {
    hide DocumentTable, PropertiesResolve, DefsResolve, InitsResolve, FeaturesResolve;
  }

  lemma RereadRoot(d: PrintSchemaDocument)
    ensures d.PrintCapabilities? ==>
      RereadDocument(d) == PrintCapabilities(PrintCapabilitiesDocument(
        RereadProperties(d.capabilities.properties), RereadDefs(d.capabilities.parameterDefs),
        RereadFeatures(d.capabilities.features)))
    ensures d.PrintTicket? ==>
      RereadDocument(d) == PrintTicket(PrintTicketDocument(
        RereadProperties(d.ticket.properties), d.ticket.parameterInits, RereadFeatures(d.ticket.features)))
  {
  }

  lemma InitialParts()
    ensures Initial.depth == 0 && Initial.valueContext.None? && Initial.parsedValue.None?
    ensures Initial.parameterRef.None? && Initial.optionName.None?
    ensures Initial.parameterDefName.None? && Initial.parameterInitName.None?
  {
  }

  lemma RunOfStopped(events: seq<XmlEvent>)
    requires Exec(Initial, events).Stop?
    ensures Run(events) == Exec(Initial, events).outcome
  {
  }

  lemma PsfNameIsPsf(local: string)
    ensures IsPsf(PsfName(local), local)
  {
  }

  lemma ExecCapabilities(c: PrintCapabilitiesDocument)
    requires DocumentResolves(PrintCapabilities(c))
    ensures Exec(Initial, Read(DocumentTable(PrintCapabilities(c)), ToXml(PrintCapabilities(c)))) ==
            Stop(Ok(RereadDocument(PrintCapabilities(c))))
  {
    var d := PrintCapabilities(c);
    var ns := DocumentTable(d);
    hide *;
    RereadRoot(d);
    DocumentParts(d);
    InitialParts();
    CapabilitiesShape(c);
    var open := Open(PsfElement("PrintCapabilities"), VersionAttribute, ns);
    var close := Close(PsfElement("PrintCapabilities"));
    OpenReads(ns, "PrintCapabilities", VersionAttribute, ns);
    CloseReads(ns, "PrintCapabilities");
    StartCapabilitiesStep(ReadAttributes(ns, VersionAttribute), ns);
    var s1 := Initial.(depth := 1, featureContainers := [[]], propertyContainers := [[]], parameterDefContainer := Some([]));
    ExecProperties(ns, s1, c.properties);
    var kids := RereadProperties(c.properties);
    var s2 := s1.(propertyContainers := AppendAllTop(s1.propertyContainers, kids));
    assert s2 == s1.(propertyContainers := AppendAllTop(s1.propertyContainers, kids),
                     parsedValue := if |c.properties| > 0 then None else s1.parsedValue);
    ExecDefs(ns, s2, c.parameterDefs);
    var s3 := s2.(parameterDefContainer := Some(s2.parameterDefContainer.value + RereadDefs(c.parameterDefs)));
    ExecFeatures(ns, s3, c.features);
    var subs := RereadFeatures(c.features);
    var s4 := s3.(featureContainers := AppendAllTop(s3.featureContainers, subs));
    ExecThen(ns, s1, WriteProperties(c.properties), WriteDefs(c.parameterDefs), s2, s3);
    ExecThen(ns, s1, WriteProperties(c.properties) + WriteDefs(c.parameterDefs), WriteFeatures(c.features), s3, s4);
    var noProperties: seq<seq<Property>>, noFeatures: seq<seq<PrintFeature>> := [], [];
    assert noProperties + [[]] == [[]] && noFeatures + [[]] == [[]] && [] + RereadDefs(c.parameterDefs) == RereadDefs(c.parameterDefs);
    PushedContainer(noProperties, kids);
    PushedContainer(noFeatures, subs);
    PsfNameIsPsf("PrintCapabilities");
    RootEndReturnsDocument(s4, PsfName("PrintCapabilities"));
    ExecElement(ns, Initial, open, WriteProperties(c.properties) + WriteDefs(c.parameterDefs) + WriteFeatures(c.features), close,
                StartElement(PsfName("PrintCapabilities"), ReadAttributes(ns, VersionAttribute), ns),
                EndElement(PsfName("PrintCapabilities")), s1, s4, Stop(Ok(RereadDocument(d))));
  }

  lemma ExecTicket(t: PrintTicketDocument)
    requires DocumentResolves(PrintTicket(t))
    ensures Exec(Initial, Read(DocumentTable(PrintTicket(t)), ToXml(PrintTicket(t)))) == Stop(Ok(RereadDocument(PrintTicket(t))))
  {
    var d := PrintTicket(t);
    var ns := DocumentTable(d);
    hide *;
    RereadRoot(d);
    DocumentParts(d);
    InitialParts();
    TicketShape(t);
    var open := Open(PsfElement("PrintTicket"), VersionAttribute, ns);
    var close := Close(PsfElement("PrintTicket"));
    OpenReads(ns, "PrintTicket", VersionAttribute, ns);
    CloseReads(ns, "PrintTicket");
    StartTicketStep(ReadAttributes(ns, VersionAttribute), ns);
    var s1 := Initial.(depth := 1, featureContainers := [[]], propertyContainers := [[]], parameterInitContainer := Some([]));
    ExecProperties(ns, s1, t.properties);
    var kids := RereadProperties(t.properties);
    var s2 := s1.(propertyContainers := AppendAllTop(s1.propertyContainers, kids));
    assert s2 == s1.(propertyContainers := AppendAllTop(s1.propertyContainers, kids),
                     parsedValue := if |t.properties| > 0 then None else s1.parsedValue);
    ExecInits(ns, s2, t.parameterInits);
    var s3 := s2.(parameterInitContainer := Some(s2.parameterInitContainer.value + t.parameterInits));
    ExecFeatures(ns, s3, t.features);
    var subs := RereadFeatures(t.features);
    var s4 := s3.(featureContainers := AppendAllTop(s3.featureContainers, subs));
    ExecThen(ns, s1, WriteProperties(t.properties), WriteInits(t.parameterInits), s2, s3);
    ExecThen(ns, s1, WriteProperties(t.properties) + WriteInits(t.parameterInits), WriteFeatures(t.features), s3, s4);
    var noProperties: seq<seq<Property>>, noFeatures: seq<seq<PrintFeature>> := [], [];
    assert noProperties + [[]] == [[]] && noFeatures + [[]] == [[]] && [] + t.parameterInits == t.parameterInits;
    PushedContainer(noProperties, kids);
    PushedContainer(noFeatures, subs);
    PsfNameIsPsf("PrintTicket");
    RootEndReturnsDocument(s4, PsfName("PrintTicket"));
    ExecElement(ns, Initial, open, WriteProperties(t.properties) + WriteInits(t.parameterInits) + WriteFeatures(t.features), close,
                StartElement(PsfName("PrintTicket"), ReadAttributes(ns, VersionAttribute), ns),
                EndElement(PsfName("PrintTicket")), s1, s4, Stop(Ok(RereadDocument(d))));
  }

  /**
   * Reading a written document back: the parser returns the document the
   * reader rebuilds, `RereadDocument(d)`, for every document whose names
   * and values resolve.
   */
  lemma DocumentReadBack(d: PrintSchemaDocument)
    requires DocumentResolves(d)
    ensures Run(ReadDocument(ToXml(d))) == Ok(RereadDocument(d))
  {
    var ns := DocumentTable(d);
    hide *;
    if d.PrintCapabilities? {
      ExecCapabilities(d.capabilities);
    } else {
      ExecTicket(d.ticket);
    }
    LexerReadsRoot(d);
    RunIgnoresRest(Read(ns, ToXml(d)), [EndDocument]);
    RunOfStopped(Read(ns, ToXml(d)));
  }

  /**
   * The round trip: a document whose names and values resolve comes back
   * unchanged exactly when no value or reference is followed by children
   * that clear it.
   */
  lemma DocumentRoundTrip(d: PrintSchemaDocument)
    requires DocumentResolves(d)
    ensures Run(ReadDocument(ToXml(d))) == Ok(d) <==> DocumentShapeOk(d)
  {
    DocumentReadBack(d);
    DocumentFixed(d);
  }

  /** The lexer reads the whole document against the table declared on its root. */
  lemma LexerReadsRoot(d: PrintSchemaDocument)
    ensures ReadDocument(ToXml(d)) == Read(DocumentTable(d), ToXml(d)) + [EndDocument]
  {
    hide DocumentTable, Read;
    if d.PrintCapabilities? {
      CapabilitiesShape(d.capabilities);
    } else {
      TicketShape(d.ticket);
    }
  }

  /**
   * What the serializer's tests check: serialising a document, parsing the
   * result and serialising again yields the same events.
   */
  lemma SerializeParseSerialize(d: PrintSchemaDocument)
    requires DocumentResolves(d) && DocumentShapeOk(d)
    ensures Run(ReadDocument(ToXml(d))).Ok?
    ensures ToXml(Run(ReadDocument(ToXml(d))).value) == ToXml(d)
  {
    DocumentRoundTrip(d);
  }

  /** The typed entry points hand the same documents back. */
  lemma CapabilitiesRoundTrip(c: PrintCapabilitiesDocument)
    requires DocumentResolves(PrintCapabilities(c)) && DocumentShapeOk(PrintCapabilities(c))
    ensures ParseCapabilities(ReadDocument(ToXml(PrintCapabilities(c)))) == Ok(c)
    ensures ParseTicket(ReadDocument(ToXml(PrintCapabilities(c)))) == Err(WrongDocumentType("PrintTicket", "PrintCapabilities"))
  {
    DocumentRoundTrip(PrintCapabilities(c));
    assert Run(ReadDocument(ToXml(PrintCapabilities(c)))) == Ok(PrintCapabilities(c));
  }

  lemma TicketRoundTrip(t: PrintTicketDocument)
    requires DocumentResolves(PrintTicket(t)) && DocumentShapeOk(PrintTicket(t))
    ensures ParseTicket(ReadDocument(ToXml(PrintTicket(t)))) == Ok(t)
    ensures ParseCapabilities(ReadDocument(ToXml(PrintTicket(t)))) == Err(WrongDocumentType("PrintCapabilities", "PrintTicket"))
  {
    DocumentRoundTrip(PrintTicket(t));
    assert Run(ReadDocument(ToXml(PrintTicket(t)))) == Ok(PrintTicket(t));
  }

  // ---------------------------------------------------------------------------
  // Parameters in the wrong document
  // ---------------------------------------------------------------------------

  /** A run that stops within its first events ignores whatever follows. */
  lemma RunStopsEarly(start: XmlEvent, s1: ParserState, body: seq<XmlEvent>, rest: seq<XmlEvent>, o: Outcome<PrintSchemaDocument>)
    requires Step(Initial, start) == Continue(s1) && Exec(s1, body) == Stop(o)
    ensures Run([start] + body + rest) == o
  {
    ExecAppend(Initial, [start] + body, rest);
    ExecAppend(Initial, [start], body);
  }

  /**
   * A ticket whose first child is a written parameter definition: the
   * definition and its properties are read, and its end tag stops the run
   * with an error whatever follows, since a ticket keeps no definitions.
   */
  lemma ParameterDefInTicketRejected(ns: Namespace, attrs: seq<Attribute>, d: ParameterDef, rest: seq<XmlEvent>)
    requires PsfBound(ns) && NameResolves(ns, d.name) && PropertiesResolve(ns, d.properties)
    ensures Run([StartElement(PsfName("PrintTicket"), attrs, ns)] + Read(ns, WriteDef(d)) + rest)
            == Err(InvalidPrintSchema("ParameterDef cannot be here"))
  {
    StartTicketStep(attrs, ns);
    var st := Initial.(depth := 1, featureContainers := [[]], propertyContainers := [[]], parameterInitContainer := Some([]));
    hide *;
    InitialParts();
    DefShape(d);
    var defAttrs := NameAttribute(d.name);
    var open := Open(PsfElement("ParameterDef"), defAttrs, map[]);
    var close := Close(PsfElement("ParameterDef"));
    OpenReads(ns, "ParameterDef", defAttrs, map[]);
    CloseReads(ns, "ParameterDef");
    NameAttributeReads(ns, d.name);
    StartDefStep(st, ReadAttributes(ns, defAttrs), ns, d.name);
    var s1 := st.(depth := st.depth + 1, parameterDefName := Some(d.name),
                  propertyContainers := st.propertyContainers + [[]]);
    ExecProperties(ns, s1, d.properties);
    var kids := RereadProperties(d.properties);
    var s2 := s1.(propertyContainers := AppendAllTop(s1.propertyContainers, kids));
    assert s2 == s1.(propertyContainers := AppendAllTop(s1.propertyContainers, kids),
                     parsedValue := if |d.properties| > 0 then None else s1.parsedValue);
    PsfNameIsPsf("ParameterDef");
    MisplacedParameterRejected(s2, PsfName("ParameterDef"));
    ExecElement(ns, st, open, WriteProperties(d.properties), close,
                StartElement(PsfName("ParameterDef"), ReadAttributes(ns, defAttrs), ns), EndElement(PsfName("ParameterDef")),
                s1, s2, Fail("ParameterDef cannot be here"));
    RunStopsEarly(StartElement(PsfName("PrintTicket"), attrs, ns), st, Read(ns, WriteDef(d)), rest,
                  Err(InvalidPrintSchema("ParameterDef cannot be here")));
  }

  /**
   * A capabilities document whose first child is a written parameter
   * initialisation: its value is decoded, and its end tag stops the run with
   * an error whatever follows, since capabilities keep no initialisations.
   */
  lemma ParameterInitInCapabilitiesRejected(ns: Namespace, attrs: seq<Attribute>, i: ParameterInit, rest: seq<XmlEvent>)
    requires PsfBound(ns) && NameResolves(ns, i.name) && ValueResolves(ns, i.value)
    ensures Run([StartElement(PsfName("PrintCapabilities"), attrs, ns)] + Read(ns, WriteInit(i)) + rest)
            == Err(InvalidPrintSchema("ParameterInit cannot be here"))
  {
    StartCapabilitiesStep(attrs, ns);
    var st := Initial.(depth := 1, featureContainers := [[]], propertyContainers := [[]], parameterDefContainer := Some([]));
    hide *;
    InitialParts();
    InitShape(i);
    var initAttrs := NameAttribute(i.name);
    var open := Open(PsfElement("ParameterInit"), initAttrs, map[]);
    var close := Close(PsfElement("ParameterInit"));
    OpenReads(ns, "ParameterInit", initAttrs, map[]);
    CloseReads(ns, "ParameterInit");
    NameAttributeReads(ns, i.name);
    StartInitStep(st, ReadAttributes(ns, initAttrs), ns, i.name);
    var s1 := st.(depth := st.depth + 1, parameterInitName := Some(i.name));
    ExecValue(ns, s1, i.value);
    var s2 := s1.(parsedValue := Some(i.value));
    PsfNameIsPsf("ParameterInit");
    MisplacedParameterRejected(s2, PsfName("ParameterInit"));
    ExecElement(ns, st, open, WriteValue(i.value), close,
                StartElement(PsfName("ParameterInit"), ReadAttributes(ns, initAttrs), ns), EndElement(PsfName("ParameterInit")),
                s1, s2, Fail("ParameterInit cannot be here"));
    RunStopsEarly(StartElement(PsfName("PrintCapabilities"), attrs, ns), st, Read(ns, WriteInit(i)), rest,
                  Err(InvalidPrintSchema("ParameterInit cannot be here")));
  }

  // ---------------------------------------------------------------------------
  // What does not come back
  // ---------------------------------------------------------------------------

  /**
   * The source writes a qualified-name value with the xml crate's `Display`,
   * `{uri}prefix:local`. `parse_qname` splits that text at its first colon,
   * so the prefix read back starts with `{`: no qualified name with a
   * namespace (and an ordinary prefix) survives.
   */
  lemma QNameAsWrittenMisread(ns: Namespace, q: OwnedName)
    requires q.namespace.Some?
    requires q.prefix.Some? ==> |q.prefix.value| == 0 || q.prefix.value[0] != '{'
    ensures DecodeValue(ValueContext(QNameTextAsWritten(q), XsdName("QName"), ns)) != Ok(QName(q))
  {
    var t := QNameTextAsWritten(q);
    assert t[0] == '{';
    var r := ParseQName(ns, t);
    if ':' in t {
      assert t == r.prefix.value + ":" + r.localName;
      assert |r.prefix.value| > 0 && r.prefix.value[0] == '{';
    }
  }

  /** The smallest case: `xsd:integer` as a value is read back with the prefix `{http`. */
  lemma XsdIntegerQNameMisread(ns: Namespace)
    ensures DecodeValue(ValueContext(QNameTextAsWritten(XsdName("integer")), XsdName("QName"), ns))
            != Ok(QName(XsdName("integer")))
  {
    QNameAsWrittenMisread(ns, XsdName("integer"));
  }

  /** The example tree of `ValueBeforeChildrenIsLost`: an outer property with a value and one sub-property. */
  function NestedExample(): PrintSchemaDocument
  {
    PrintTicket(PrintTicketDocument(
      [Property(Local("Outer"), Some(String("v")), [Property(Local("Inner"), None, [])])], [], []))
  }

  /** The example declares `psf`, then `xsi` and `xsd` for its string value, and nothing else. */
  lemma NestedExampleTable()
    ensures DocumentTable(NestedExample()) == map["psf" := NS_PSF, "xsi" := NS_XSI, "xsd" := NS_XSD]
  {
    var inner := Property(Local("Inner"), None, []);
    var outer := Property(Local("Outer"), Some(String("v")), [inner]);
    var ns0: Namespace := map["psf" := NS_PSF];
    var ns1 := map["psf" := NS_PSF, "xsi" := NS_XSI, "xsd" := NS_XSD];
    assert Put(map[], "psf", NS_PSF) == ns0;
    assert CollectValue(ns0, String("v")) == ns1;
    assert [inner][1..] == [] && [outer][1..] == [];
    assert CollectProperty(ns1, inner) == ns1 by {
      assert Put(ns1, "psf", NS_PSF) == ns1;
    }
    assert CollectProperties(ns1, [inner]) == ns1;
    assert CollectProperty(ns0, outer) == ns1 by {
      assert Put(ns0, "psf", NS_PSF) == ns0 && CollectName(ns0, Local("Outer")) == ns0;
      assert CollectOptionalValue(ns0, Some(String("v"))) == ns1;
    }
    assert CollectProperties(ns0, [outer]) == ns1;
  }

  lemma NestedExampleResolves()
    ensures DocumentResolves(NestedExample())
  {
    var inner := Property(Local("Inner"), None, []);
    var outer := Property(Local("Outer"), Some(String("v")), [inner]);
    var ns1 := map["psf" := NS_PSF, "xsi" := NS_XSI, "xsd" := NS_XSD];
    NestedExampleTable();
    hide DocumentTable;
    assert [inner][1..] == [] && [outer][1..] == [];
    assert ValueResolves(ns1, String("v"));
    assert PropertiesResolve(ns1, [inner]);
    assert PropertiesResolve(ns1, [outer]);
  }

  lemma NestedExampleRereads()
    ensures RereadDocument(NestedExample())
            == PrintTicket(PrintTicketDocument([Property(Local("Outer"), None, [Property(Local("Inner"), None, [])])], [], []))
    ensures RereadDocument(NestedExample()) != NestedExample()
  {
    var inner := Property(Local("Inner"), None, []);
    assert RereadProperties([inner]) == [inner] by {
      assert [inner][1..] == [];
    }
  }

  /**
   * A property holding both a value and a sub-property: the sub-property's
   * start tag clears the pending value, so the parent comes back without it.
   */
  lemma ValueBeforeChildrenIsLost()
    ensures Run(ReadDocument(ToXml(NestedExample())))
            == Ok(PrintTicket(PrintTicketDocument([Property(Local("Outer"), None, [Property(Local("Inner"), None, [])])], [], [])))
    ensures Run(ReadDocument(ToXml(NestedExample()))) != Ok(NestedExample())
  {
    hide *;
    NestedExampleResolves();
    DocumentReadBack(NestedExample());
    NestedExampleRereads();
  }
}
