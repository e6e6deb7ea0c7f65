/**
 * The Print Schema serializer (src/ticket/print_schema_serializer.rs): the
 * namespace table a document collects, and the writer events it emits, in
 * the order the source writes them.
 */
module Serializer {
  import opened Base
  import opened XmlName
  import opened Integers
  import opened PrintSchema

  /** An attribute handed to the writer: a (possibly prefixed) name and its value. */
  datatype WriterAttribute = WriterAttribute(name: string, value: string)

  /**
   * The events of the xml crate's `EventWriter` the serializer emits. The
   * writer itself remembers which element an `end_element()` closes; the
   * model writes that name into `Close`.
   */
  datatype WriterEvent =
    | Open(element: string, attributes: seq<WriterAttribute>, namespace: Namespace)
    | Close(element: string)
    | Text(text: string)

  // ---------------------------------------------------------------------------
  // Names
  // ---------------------------------------------------------------------------

  /** `format_name`: `prefix:local` when there is a prefix, else the local name; never the URI. */
  function FormatName(n: OwnedName): string
  {
    match n.prefix
    case Some(p) => p + ":" + n.localName
    case None => n.localName
  }

  /** An element name of the Print Schema Framework vocabulary, as the serializer spells it (`psf:Feature`). */
  function PsfElement(local: string): string
  {
    "psf:" + local
  }

  /** Objects extend a table: every binding already present stays as it was. */
  ghost predicate Extends(ns: Namespace, r: Namespace)
  {
    forall k :: k in ns ==> k in r && r[k] == ns[k]
  }

  /** `collect_namespace_from_name`: only a name with both a prefix and a namespace adds a binding. */
  function CollectName(ns: Namespace, n: OwnedName): (r: Namespace)
    ensures Extends(ns, r)
    ensures n.prefix.Some? && n.namespace.Some? ==> n.prefix.value in r
    ensures n.prefix.None? || n.namespace.None? ==> r == ns
    ensures r.Keys <= ns.Keys + (if n.prefix.Some? then {n.prefix.value} else {})
  {
    match (n.prefix, n.namespace)
    case (Some(p), Some(u)) => Put(ns, p, u)
    case _ => ns
  }

  // ---------------------------------------------------------------------------
  // Namespace collection (`collect_namespace`), one function per node kind
  // ---------------------------------------------------------------------------

  /** Every node binds `psf` first; a value also binds `xsi`, then its type's prefix. */
  function CollectValue(ns: Namespace, v: PropertyValue): (r: Namespace)
    ensures Extends(ns, r)
    ensures "psf" in r && "xsi" in r
  {
    CollectName(Put(Put(ns, "psf", NS_PSF), "xsi", NS_XSI), XsiType(v))
  }

  function CollectOptionalValue(ns: Namespace, v: Option<PropertyValue>): (r: Namespace)
    ensures Extends(ns, r)
    ensures v.Some? ==> "xsi" in r
  {
    match v
    case Some(x) => CollectValue(ns, x)
    case None => ns
  }

  function CollectOptionalName(ns: Namespace, n: Option<OwnedName>): (r: Namespace)
    ensures Extends(ns, r)
  {
    match n
    case Some(x) => CollectName(ns, x)
    case None => ns
  }

  function CollectProperty(ns: Namespace, p: Property): (r: Namespace)
    ensures Extends(ns, r)
    ensures "psf" in r
    decreases p
  {
    CollectProperties(CollectOptionalValue(CollectName(Put(ns, "psf", NS_PSF), p.name), p.value), p.properties)
  }

  function CollectProperties(ns: Namespace, ps: seq<Property>): (r: Namespace)
    ensures Extends(ns, r)
    decreases ps
  {
    if |ps| == 0 then ns else CollectProperties(CollectProperty(ns, ps[0]), ps[1..])
  }

  function CollectScored(ns: Namespace, sp: ScoredProperty): (r: Namespace)
    ensures Extends(ns, r)
    ensures "psf" in r
    decreases sp
  {
    var ns1 := CollectOptionalName(CollectOptionalName(Put(ns, "psf", NS_PSF), sp.name), sp.parameterRef);
    CollectProperties(CollectScoredList(CollectOptionalValue(ns1, sp.value), sp.scoredProperties), sp.properties)
  }

  function CollectScoredList(ns: Namespace, sps: seq<ScoredProperty>): (r: Namespace)
    ensures Extends(ns, r)
    decreases sps
  {
    if |sps| == 0 then ns else CollectScoredList(CollectScored(ns, sps[0]), sps[1..])
  }

  function CollectOption(ns: Namespace, o: PrintFeatureOption): (r: Namespace)
    ensures Extends(ns, r)
    ensures "psf" in r
  {
    CollectProperties(CollectScoredList(CollectOptionalName(Put(ns, "psf", NS_PSF), o.name), o.scoredProperties), o.properties)
  }

  function CollectOptions(ns: Namespace, os: seq<PrintFeatureOption>): (r: Namespace)
    ensures Extends(ns, r)
    decreases |os|
  {
    if |os| == 0 then ns else CollectOptions(CollectOption(ns, os[0]), os[1..])
  }

  function CollectFeature(ns: Namespace, f: PrintFeature): (r: Namespace)
    ensures Extends(ns, r)
    ensures "psf" in r
    decreases f
  {
    var ns1 := CollectOptions(CollectName(Put(ns, "psf", NS_PSF), f.name), f.options);
    CollectFeatures(CollectProperties(ns1, f.properties), f.features)
  }

  function CollectFeatures(ns: Namespace, fs: seq<PrintFeature>): (r: Namespace)
    ensures Extends(ns, r)
    decreases fs
  {
    if |fs| == 0 then ns else CollectFeatures(CollectFeature(ns, fs[0]), fs[1..])
  }

  function CollectDef(ns: Namespace, d: ParameterDef): (r: Namespace)
    ensures Extends(ns, r)
  {
    CollectProperties(CollectName(Put(ns, "psf", NS_PSF), d.name), d.properties)
  }

  function CollectDefs(ns: Namespace, ds: seq<ParameterDef>): (r: Namespace)
    ensures Extends(ns, r)
    decreases |ds|
  {
    if |ds| == 0 then ns else CollectDefs(CollectDef(ns, ds[0]), ds[1..])
  }

  function CollectInit(ns: Namespace, i: ParameterInit): (r: Namespace)
    ensures Extends(ns, r)
    ensures "xsi" in r
  {
    CollectValue(CollectName(Put(ns, "psf", NS_PSF), i.name), i.value)
  }

  function CollectInits(ns: Namespace, inits: seq<ParameterInit>): (r: Namespace)
    ensures Extends(ns, r)
    decreases |inits|
  {
    if |inits| == 0 then ns else CollectInits(CollectInit(ns, inits[0]), inits[1..])
  }

  /**
   * The table a document declares on its root element. `psf` is put first
   * into an empty table, and a binding is never overridden, so `psf` always
   * means the Print Schema Framework namespace.
   */
  function DocumentTable(d: PrintSchemaDocument): (r: Namespace)
    ensures Lookup(r, "psf") == Some(NS_PSF)
  {
    var ns0 := Put(map[], "psf", NS_PSF);
    match d
    case PrintCapabilities(c) =>
      CollectFeatures(CollectDefs(CollectProperties(ns0, c.properties), c.parameterDefs), c.features)
    case PrintTicket(t) =>
      CollectFeatures(CollectInits(CollectProperties(ns0, t.properties), t.parameterInits), t.features)
  }

  // ---------------------------------------------------------------------------
  // Writing (`write_to`), one function per node kind
  // ---------------------------------------------------------------------------

  function NameAttribute(n: OwnedName): seq<WriterAttribute>
  {
    [WriterAttribute("name", FormatName(n))]
  }

  /** `start_element_with_optional_name` */
  function StartWithOptionalName(element: string, n: Option<OwnedName>): WriterEvent
  {
    match n
    case Some(x) => Open(element, NameAttribute(x), map[])
    case None => Open(element, [], map[])
  }

  /** The source writes a qualified-name value with the name's `Display`: `{uri}prefix:local`. */
  function QNameTextAsWritten(q: OwnedName): string
  {
    DisplayName(q)
  }

  /**
   * The text a value is written as (`PropertyValue`'s `write_to`). A
   * qualified name is written with `QNameTextAsWritten`, which the reader's
   * `parse_qname` reads back as the same name only when the name has no
   * namespace.
   */
  function ValueText(v: PropertyValue): string
  {
    match v
    case String(s) => s
    case Integer(i) => I32ToString(i)
    case QName(q) => QNameTextAsWritten(q)
    case Unknown(_, s) => s
  }

  /**
   * The value text with a qualified name written as `prefix:local` by
   * `format_name`, as element and attribute names are written: the form
   * `parse_qname` reads back as the same name.
   */
  function CorrectedValueText(v: PropertyValue): string
  {
    match v
    case QName(q) => FormatName(q)
    case _ => ValueText(v)
  }

  function WriteValue(v: PropertyValue): seq<WriterEvent>
  {
    [Open(PsfElement("Value"), [WriterAttribute("xsi:type", FormatName(XsiType(v)))], map[]),
     Text(ValueText(v)),
     Close(PsfElement("Value"))]
  }

  function WriteOptionalValue(v: Option<PropertyValue>): seq<WriterEvent>
  {
    match v
    case Some(x) => WriteValue(x)
    case None => []
  }

  function WriteProperty(p: Property): seq<WriterEvent>
    decreases p
  {
    [Open(PsfElement("Property"), NameAttribute(p.name), map[])]
    + WriteOptionalValue(p.value)
    + WriteProperties(p.properties)
    + [Close(PsfElement("Property"))]
  }

  function WriteProperties(ps: seq<Property>): seq<WriterEvent>
    decreases ps
  {
    if |ps| == 0 then [] else WriteProperty(ps[0]) + WriteProperties(ps[1..])
  }

  function WriteParameterRef(r: Option<OwnedName>): seq<WriterEvent>
  {
    match r
    case Some(n) => [Open(PsfElement("ParameterRef"), NameAttribute(n), map[]), Close(PsfElement("ParameterRef"))]
    case None => []
  }

  function WriteScored(sp: ScoredProperty): seq<WriterEvent>
    decreases sp
  {
    [StartWithOptionalName(PsfElement("ScoredProperty"), sp.name)]
    + WriteParameterRef(sp.parameterRef)
    + WriteOptionalValue(sp.value)
    + WriteScoredList(sp.scoredProperties)
    + WriteProperties(sp.properties)
    + [Close(PsfElement("ScoredProperty"))]
  }

  function WriteScoredList(sps: seq<ScoredProperty>): seq<WriterEvent>
    decreases sps
  {
    if |sps| == 0 then [] else WriteScored(sps[0]) + WriteScoredList(sps[1..])
  }

  function WriteOption(o: PrintFeatureOption): seq<WriterEvent>
  {
    [StartWithOptionalName(PsfElement("Option"), o.name)]
    + WriteScoredList(o.scoredProperties)
    + WriteProperties(o.properties)
    + [Close(PsfElement("Option"))]
  }

  function WriteOptions(os: seq<PrintFeatureOption>): seq<WriterEvent>
  {
    if |os| == 0 then [] else WriteOption(os[0]) + WriteOptions(os[1..])
  }

  function WriteFeature(f: PrintFeature): seq<WriterEvent>
    decreases f
  {
    [Open(PsfElement("Feature"), NameAttribute(f.name), map[])]
    + WriteOptions(f.options)
    + WriteProperties(f.properties)
    + WriteFeatures(f.features)
    + [Close(PsfElement("Feature"))]
  }

  function WriteFeatures(fs: seq<PrintFeature>): seq<WriterEvent>
    decreases fs
  {
    if |fs| == 0 then [] else WriteFeature(fs[0]) + WriteFeatures(fs[1..])
  }

  function WriteDef(d: ParameterDef): seq<WriterEvent>
  {
    [Open(PsfElement("ParameterDef"), NameAttribute(d.name), map[])]
    + WriteProperties(d.properties)
    + [Close(PsfElement("ParameterDef"))]
  }

  function WriteDefs(ds: seq<ParameterDef>): seq<WriterEvent>
  {
    if |ds| == 0 then [] else WriteDef(ds[0]) + WriteDefs(ds[1..])
  }

  function WriteInit(i: ParameterInit): seq<WriterEvent>
  {
    [Open(PsfElement("ParameterInit"), NameAttribute(i.name), map[])]
    + WriteValue(i.value)
    + [Close(PsfElement("ParameterInit"))]
  }

  function WriteInits(inits: seq<ParameterInit>): seq<WriterEvent>
  {
    if |inits| == 0 then [] else WriteInit(inits[0]) + WriteInits(inits[1..])
  }

  const VersionAttribute: seq<WriterAttribute> := [WriterAttribute("version", "1")]

  /**
   * `XmlDocumentRoot::to_xml`, as writer events: the root carries
   * `version="1"` and declares the whole collected table; no other element
   * declares a namespace.
   */
  function ToXml(d: PrintSchemaDocument): seq<WriterEvent>
  {
    match d
    case PrintCapabilities(c) =>
      [Open(PsfElement("PrintCapabilities"), VersionAttribute, DocumentTable(d))]
      + WriteProperties(c.properties) + WriteDefs(c.parameterDefs) + WriteFeatures(c.features)
      + [Close(PsfElement("PrintCapabilities"))]
    case PrintTicket(t) =>
      [Open(PsfElement("PrintTicket"), VersionAttribute, DocumentTable(d))]
      + WriteProperties(t.properties) + WriteInits(t.parameterInits) + WriteFeatures(t.features)
      + [Close(PsfElement("PrintTicket"))]
  }
}
