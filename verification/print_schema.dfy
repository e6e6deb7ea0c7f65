/**
 * The Print Schema document tree (src/ticket/document/print_schema.rs, and its
 * older duplicate src/ticket/print_schema.rs) with the pure lookups built on it:
 * parameter defaults, `xsi:type` names, dependent parameters, parameter
 * resolution and first-match property search.
 */
module PrintSchema {
  import opened Base
  import opened XmlName
  import opened Integers

  /** The four value encodings of a `psf:Value`. */
  datatype PropertyValue =
    | String(text: string)
    | Integer(number: i32)
    | QName(qname: OwnedName)
    | Unknown(typeName: OwnedName, text: string)

  datatype Property = Property(name: OwnedName, value: Option<PropertyValue>, properties: seq<Property>)

  datatype ScoredProperty = ScoredProperty(
    name: Option<OwnedName>,
    parameterRef: Option<OwnedName>,
    value: Option<PropertyValue>,
    scoredProperties: seq<ScoredProperty>,
    properties: seq<Property>)

  datatype PrintFeatureOption = PrintFeatureOption(
    name: Option<OwnedName>,
    scoredProperties: seq<ScoredProperty>,
    properties: seq<Property>)

  datatype PrintFeature = PrintFeature(
    name: OwnedName,
    properties: seq<Property>,
    options: seq<PrintFeatureOption>,
    features: seq<PrintFeature>)

  datatype ParameterDef = ParameterDef(name: OwnedName, properties: seq<Property>)

  datatype ParameterInit = ParameterInit(name: OwnedName, value: PropertyValue)

  datatype PrintCapabilitiesDocument = PrintCapabilitiesDocument(
    properties: seq<Property>,
    parameterDefs: seq<ParameterDef>,
    features: seq<PrintFeature>)

  datatype PrintTicketDocument = PrintTicketDocument(
    properties: seq<Property>,
    parameterInits: seq<ParameterInit>,
    features: seq<PrintFeature>)

  datatype PrintSchemaDocument =
    | PrintCapabilities(capabilities: PrintCapabilitiesDocument)
    | PrintTicket(ticket: PrintTicketDocument)

  /** `WithProperties::properties` of either document root. */
  function DocumentProperties(d: PrintSchemaDocument): seq<Property>
  {
    match d
    case PrintCapabilities(c) => c.properties
    case PrintTicket(t) => t.properties
  }

  // ---------------------------------------------------------------------------
  // First-match property search (`WithProperties::get_property`)
  // ---------------------------------------------------------------------------

  /** The name test `get_property` applies: same local name and same namespace. */
  predicate NameIs(n: OwnedName, local: string, ns: Option<string>)
  {
    n.localName == local && n.namespace == ns
  }

  /** `i` is the first position of `props` whose name passes the test. */
  predicate IsFirstProperty(props: seq<Property>, local: string, ns: Option<string>, i: int)
  {
    && 0 <= i < |props|
    && NameIs(props[i].name, local, ns)
    && forall j :: 0 <= j < i ==> !NameIs(props[j].name, local, ns)
  }

  /** `WithProperties::get_property`: the first property with this local name and namespace. */
  function GetProperty(props: seq<Property>, local: string, ns: Option<string>): (r: Option<Property>)
    ensures r.Some? <==> exists i :: 0 <= i < |props| && NameIs(props[i].name, local, ns)
    ensures r.Some? ==> exists i :: IsFirstProperty(props, local, ns, i) && r.value == props[i]
    ensures forall i :: IsFirstProperty(props, local, ns, i) ==> r == Some(props[i])
  {
    if |props| == 0 then None
    else if NameIs(props[0].name, local, ns) then
      assert IsFirstProperty(props, local, ns, 0);
      Some(props[0])
    else
      var r := GetProperty(props[1..], local, ns);
      assert forall i :: 1 <= i < |props| ==> props[i] == props[1..][i - 1];
      assert forall i :: IsFirstProperty(props, local, ns, i) ==> IsFirstProperty(props[1..], local, ns, i - 1);
      if r.Some? then
        var k :| IsFirstProperty(props[1..], local, ns, k) && r.value == props[1..][k];
        assert IsFirstProperty(props, local, ns, k + 1);
        r
      else r
  }

  /** A lookup never returns a property whose name fails the test, and a `None` namespace matches only unqualified names. */
  lemma GetPropertyMatchesNamespace(props: seq<Property>, local: string, ns: Option<string>)
    ensures GetProperty(props, local, ns).Some? ==>
      GetProperty(props, local, ns).value.name.localName == local
      && GetProperty(props, local, ns).value.name.namespace == ns
  {
  }

  // ---------------------------------------------------------------------------
  // `WithScoredProperties::get_scored_property`
  // ---------------------------------------------------------------------------

  /** The test `get_scored_property` applies: a name is present and it matches; anonymous entries never match. */
  predicate ScoredNameIs(sp: ScoredProperty, local: string, ns: Option<string>)
  {
    sp.name.Some? && NameIs(sp.name.value, local, ns)
  }

  predicate IsFirstScored(sps: seq<ScoredProperty>, local: string, ns: Option<string>, i: int)
  {
    && 0 <= i < |sps|
    && ScoredNameIs(sps[i], local, ns)
    && forall j :: 0 <= j < i ==> !ScoredNameIs(sps[j], local, ns)
  }

  /** `WithScoredProperties::get_scored_property`: the first named scored property that matches. */
  function GetScoredProperty(sps: seq<ScoredProperty>, local: string, ns: Option<string>): (r: Option<ScoredProperty>)
    ensures r.Some? <==> exists i :: 0 <= i < |sps| && ScoredNameIs(sps[i], local, ns)
    ensures r.Some? ==> r.value.name.Some? && exists i :: IsFirstScored(sps, local, ns, i) && r.value == sps[i]
    ensures forall i :: IsFirstScored(sps, local, ns, i) ==> r == Some(sps[i])
  {
    if |sps| == 0 then None
    else if ScoredNameIs(sps[0], local, ns) then
      assert IsFirstScored(sps, local, ns, 0);
      Some(sps[0])
    else
      var r := GetScoredProperty(sps[1..], local, ns);
      assert forall i :: 1 <= i < |sps| ==> sps[i] == sps[1..][i - 1];
      assert forall i :: IsFirstScored(sps, local, ns, i) ==> IsFirstScored(sps[1..], local, ns, i - 1);
      if r.Some? then
        var k :| IsFirstScored(sps[1..], local, ns, k) && r.value == sps[1..][k];
        assert IsFirstScored(sps, local, ns, k + 1);
        r
      else r
  }

  // ---------------------------------------------------------------------------
  // `ParameterDef::default_value`
  // ---------------------------------------------------------------------------

  /** `ParameterDef::default_value`: the value of the first `psf:DefaultValue` property, if any. */
  function DefaultValue(def: ParameterDef): (r: Option<PropertyValue>)
    ensures r.Some? ==> exists i :: IsFirstProperty(def.properties, "DefaultValue", Some(NS_PSF), i)
                                    && def.properties[i].value == r
    ensures (forall i :: 0 <= i < |def.properties| ==> !NameIs(def.properties[i].name, "DefaultValue", Some(NS_PSF)))
            ==> r.None?
    ensures forall i :: IsFirstProperty(def.properties, "DefaultValue", Some(NS_PSF), i) ==> r == def.properties[i].value
  {
    match GetProperty(def.properties, "DefaultValue", Some(NS_PSF))
    case Some(p) => p.value
    case None => None
  }

  /**
   * Only the first `psf:DefaultValue` property is consulted: when it carries no
   * value the result is `None`, whatever later matches hold.
   */
  lemma DefaultValueFirstMatchOnly(def: ParameterDef, i: nat, j: nat)
    requires i < j < |def.properties|
    requires IsFirstProperty(def.properties, "DefaultValue", Some(NS_PSF), i)
    requires def.properties[i].value.None?
    requires NameIs(def.properties[j].name, "DefaultValue", Some(NS_PSF))
    ensures DefaultValue(def).None?
  {
  }

  // ---------------------------------------------------------------------------
  // `PropertyValue` helpers
  // ---------------------------------------------------------------------------

  /** A name in the XML Schema namespace under the conventional `xsd` prefix. */
  function XsdName(local: string): OwnedName
  {
    Qualified(local, NS_XSD, Some("xsd"))
  }

  /** `PropertyValue::xsi_type` */
  function XsiType(v: PropertyValue): (r: OwnedName)
    ensures v.Unknown? ==> r == v.typeName
    ensures !v.Unknown? ==> r.namespace == Some(NS_XSD) && r.prefix == Some("xsd")
    ensures v.String? <==> !v.Unknown? && r.localName == "string"
    ensures v.Integer? <==> !v.Unknown? && r.localName == "integer"
    ensures v.QName? <==> !v.Unknown? && r.localName == "QName"
  {
    match v
    case String(_) => XsdName("string")
    case Integer(_) => XsdName("integer")
    case QName(_) => XsdName("QName")
    case Unknown(n, _) => n
  }

  /** `PropertyValue::string` */
  function StringOf(v: PropertyValue): (r: Option<string>)
    ensures r.Some? <==> v.String?
    ensures r.Some? ==> r.value == v.text
  {
    match v
    case String(s) => Some(s)
    case _ => None
  }

  /** `PropertyValue::integer` */
  function IntegerOf(v: PropertyValue): (r: Option<i32>)
    ensures r.Some? <==> v.Integer?
    ensures r.Some? ==> r.value == v.number
  {
    match v
    case Integer(i) => Some(i)
    case _ => None
  }

  /** `PropertyValue::qualified_name` */
  function QualifiedNameOf(v: PropertyValue): (r: Option<OwnedName>)
    ensures r.Some? <==> v.QName?
    ensures r.Some? ==> r.value == v.qname
  {
    match v
    case QName(q) => Some(q)
    case _ => None
  }

  // ---------------------------------------------------------------------------
  // `parameters_dependent`
  // ---------------------------------------------------------------------------

  /** `ScoredProperty::parameters_dependent`: its own reference, then those of its nested scored properties. */
  function ScoredParametersDependent(sp: ScoredProperty): (r: seq<OwnedName>)
    ensures sp.parameterRef.Some? ==> |r| > 0 && r[0] == sp.parameterRef.value
    ensures sp.parameterRef.None? && sp.scoredProperties == [] ==> r == []
  {
    (match sp.parameterRef case Some(n) => [n] case None => [])
    + ScoredListParametersDependent(sp.scoredProperties)
  }

  /** The concatenation of `parameters_dependent` over a list of scored properties, in order. */
  function ScoredListParametersDependent(sps: seq<ScoredProperty>): seq<OwnedName>
  {
    if |sps| == 0 then [] else ScoredParametersDependent(sps[0]) + ScoredListParametersDependent(sps[1..])
  }

  /** `PrintFeatureOption::parameters_dependent` */
  function OptionParametersDependent(o: PrintFeatureOption): seq<OwnedName>
  {
    ScoredListParametersDependent(o.scoredProperties)
  }

  /** The scored properties of a subtree in pre-order: the node, then each child's subtree in turn. */
  function Preorder(sp: ScoredProperty): seq<ScoredProperty>
  {
    [sp] + PreorderList(sp.scoredProperties)
  }

  function PreorderList(sps: seq<ScoredProperty>): seq<ScoredProperty>
  {
    if |sps| == 0 then [] else Preorder(sps[0]) + PreorderList(sps[1..])
  }

  /** The parameter references of a flat list of scored properties, in order, duplicates kept. */
  function RefsOf(sps: seq<ScoredProperty>): (r: seq<OwnedName>)
    ensures |r| <= |sps|
  {
    if |sps| == 0 then []
    else (match sps[0].parameterRef case Some(n) => [n] case None => []) + RefsOf(sps[1..])
  }

  lemma RefsOfAppend(a: seq<ScoredProperty>, b: seq<ScoredProperty>)
    ensures RefsOf(a + b) == RefsOf(a) + RefsOf(b)
  {
    if |a| == 0 {
      assert a + b == b;
    } else {
      assert (a + b)[1..] == a[1..] + b;
      RefsOfAppend(a[1..], b);
    }
  }

  /**
   * `parameters_dependent` lists the references met in a pre-order walk of the
   * scored-property tree; `properties` children are never visited.
   */
  lemma {:induction false} ParametersDependentIsPreorder(sp: ScoredProperty)
    ensures ScoredParametersDependent(sp) == RefsOf(Preorder(sp))
    decreases sp, 1
  {
    ParametersDependentListIsPreorder(sp.scoredProperties);
    RefsOfAppend([sp], PreorderList(sp.scoredProperties));
  }

  lemma {:induction false} ParametersDependentListIsPreorder(sps: seq<ScoredProperty>)
    ensures ScoredListParametersDependent(sps) == RefsOf(PreorderList(sps))
    decreases sps, 0
  {
    if |sps| > 0 {
      ParametersDependentIsPreorder(sps[0]);
      ParametersDependentListIsPreorder(sps[1..]);
      RefsOfAppend(Preorder(sps[0]), PreorderList(sps[1..]));
    }
  }

  /** An option's dependent parameters are the concatenation over its scored properties. */
  lemma {:induction false} OptionParametersDependentConcat(a: seq<ScoredProperty>, b: seq<ScoredProperty>)
    ensures ScoredListParametersDependent(a + b) == ScoredListParametersDependent(a) + ScoredListParametersDependent(b)
  {
    if |a| == 0 {
      assert a + b == b;
    } else {
      assert (a + b)[1..] == a[1..] + b;
      OptionParametersDependentConcat(a[1..], b);
    }
  }

  // ---------------------------------------------------------------------------
  // `ScoredProperty::value_with`
  // ---------------------------------------------------------------------------

  predicate IsFirstParameter(params: seq<ParameterInit>, name: OwnedName, i: int)
  {
    && 0 <= i < |params|
    && params[i].name == name
    && forall j :: 0 <= j < i ==> params[j].name != name
  }

  /** The value of the first parameter initialisation with this name. */
  function FindParameter(params: seq<ParameterInit>, name: OwnedName): (r: Option<PropertyValue>)
    ensures r.Some? <==> exists i :: 0 <= i < |params| && params[i].name == name
    ensures r.Some? ==> exists i :: IsFirstParameter(params, name, i) && r.value == params[i].value
  {
    if |params| == 0 then None
    else if params[0].name == name then
      assert IsFirstParameter(params, name, 0);
      Some(params[0].value)
    else
      var r := FindParameter(params[1..], name);
      assert forall i :: 1 <= i < |params| ==> params[i] == params[1..][i - 1];
      if r.Some? then
        var k :| IsFirstParameter(params[1..], name, k) && r.value == params[1..][k].value;
        assert IsFirstParameter(params, name, k + 1);
        r
      else r
  }

  /**
   * `ScoredProperty::value_with`: with a parameter reference, the value of the
   * first initialisation of that parameter (the inline value is ignored);
   * without one, the inline value.
   */
  function ValueWith(sp: ScoredProperty, params: seq<ParameterInit>): (r: Option<PropertyValue>)
    ensures sp.parameterRef.None? ==> r == sp.value
    ensures sp.parameterRef.Some? ==>
      (r.Some? <==> exists i :: 0 <= i < |params| && params[i].name == sp.parameterRef.value)
    ensures sp.parameterRef.Some? && r.Some? ==>
      exists i :: IsFirstParameter(params, sp.parameterRef.value, i) && r.value == params[i].value
  {
    match sp.parameterRef
    case Some(ref) => FindParameter(params, ref)
    case None => sp.value
  }

  /** With a reference set, the inline value plays no part in `value_with`. */
  lemma ValueWithIgnoresInlineValue(sp: ScoredProperty, params: seq<ParameterInit>, v: Option<PropertyValue>)
    requires sp.parameterRef.Some?
    ensures ValueWith(sp.(value := v), params) == ValueWith(sp, params)
  {
  }
}
