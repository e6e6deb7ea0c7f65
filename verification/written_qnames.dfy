/**
 * Qualified-name values as the serializer writes them. The source writes a
 * `QName` value with the name's `Display`, `{uri}prefix:local`
 * (src/ticket/print_schema_serializer.rs:268-270), and `parse_qname`
 * splits that text at its first colon. A namespaced qualified name
 * therefore comes back as a different name, but one whose `Display` is the
 * same text again, so serialising the parsed document gives the same
 * events. `Reparsed*` rebuilds a tree with every qualified-name value
 * replaced by what the reader parses from its written text.
 */
module WrittenQNames {
  import opened Base
  import opened XmlName
  import opened PrintSchema
  import opened Reader
  import opened Serializer
  import opened Lexer
  import opened ReadBack
  import opened RoundTrip

  // ---------------------------------------------------------------------------
  // The tree with its qualified-name values read back from their text
  // ---------------------------------------------------------------------------

  /** What the reader decodes from a written value (`DecodeWrittenValue`). */
  function ReparsedValue(ns: Namespace, v: PropertyValue): (r: PropertyValue)
    ensures XsiType(r) == XsiType(v)
    ensures r.QName? <==> v.QName?
    ensures !v.QName? ==> r == v
  {
    match v
    case QName(q) => QName(ParseQName(ns, QNameTextAsWritten(q)))
    case _ => v
  }

  function ReparsedOptionalValue(ns: Namespace, v: Option<PropertyValue>): (r: Option<PropertyValue>)
    ensures r.Some? <==> v.Some?
  {
    match v
    case Some(x) => Some(ReparsedValue(ns, x))
    case None => None
  }

  function ReparsedProperty(ns: Namespace, p: Property): Property
    decreases p
  {
    Property(p.name, ReparsedOptionalValue(ns, p.value), ReparsedProperties(ns, p.properties))
  }

  function ReparsedProperties(ns: Namespace, ps: seq<Property>): (r: seq<Property>)
    ensures |r| == |ps|
    decreases ps
  {
    if |ps| == 0 then [] else [ReparsedProperty(ns, ps[0])] + ReparsedProperties(ns, ps[1..])
  }

  function ReparsedScored(ns: Namespace, sp: ScoredProperty): ScoredProperty
    decreases sp
  {
    ScoredProperty(sp.name, sp.parameterRef, ReparsedOptionalValue(ns, sp.value),
                   ReparsedScoredList(ns, sp.scoredProperties), ReparsedProperties(ns, sp.properties))
  }

  function ReparsedScoredList(ns: Namespace, sps: seq<ScoredProperty>): (r: seq<ScoredProperty>)
    ensures |r| == |sps|
    decreases sps
  {
    if |sps| == 0 then [] else [ReparsedScored(ns, sps[0])] + ReparsedScoredList(ns, sps[1..])
  }

  function ReparsedOption(ns: Namespace, o: PrintFeatureOption): PrintFeatureOption
  {
    PrintFeatureOption(o.name, ReparsedScoredList(ns, o.scoredProperties), ReparsedProperties(ns, o.properties))
  }

  function ReparsedOptions(ns: Namespace, os: seq<PrintFeatureOption>): (r: seq<PrintFeatureOption>)
    ensures |r| == |os|
  {
    if |os| == 0 then [] else [ReparsedOption(ns, os[0])] + ReparsedOptions(ns, os[1..])
  }

  function ReparsedFeature(ns: Namespace, f: PrintFeature): PrintFeature
    decreases f
  {
    PrintFeature(f.name, ReparsedProperties(ns, f.properties), ReparsedOptions(ns, f.options), ReparsedFeatures(ns, f.features))
  }

  function ReparsedFeatures(ns: Namespace, fs: seq<PrintFeature>): (r: seq<PrintFeature>)
    ensures |r| == |fs|
    decreases fs
  {
    if |fs| == 0 then [] else [ReparsedFeature(ns, fs[0])] + ReparsedFeatures(ns, fs[1..])
  }

  function ReparsedDefs(ns: Namespace, ds: seq<ParameterDef>): (r: seq<ParameterDef>)
    ensures |r| == |ds|
  {
    if |ds| == 0 then [] else [ParameterDef(ds[0].name, ReparsedProperties(ns, ds[0].properties))] + ReparsedDefs(ns, ds[1..])
  }

  function ReparsedInits(ns: Namespace, inits: seq<ParameterInit>): (r: seq<ParameterInit>)
    ensures |r| == |inits|
  {
    if |inits| == 0 then []
    else [ParameterInit(inits[0].name, ReparsedValue(ns, inits[0].value))] + ReparsedInits(ns, inits[1..])
  }

  /** The document with every qualified-name value read back under the table its root declares. */
  function ReparsedDocument(d: PrintSchemaDocument): PrintSchemaDocument
  {
    var ns := DocumentTable(d);
    match d
    case PrintCapabilities(c) =>
      PrintCapabilities(PrintCapabilitiesDocument(
        ReparsedProperties(ns, c.properties), ReparsedDefs(ns, c.parameterDefs), ReparsedFeatures(ns, c.features)))
    case PrintTicket(t) =>
      PrintTicket(PrintTicketDocument(
        ReparsedProperties(ns, t.properties), ReparsedInits(ns, t.parameterInits), ReparsedFeatures(ns, t.features)))
  }

  // ---------------------------------------------------------------------------
  // Reading a written value back
  // ---------------------------------------------------------------------------

  /**
   * A value is read back as `ReparsedValue`. When the name read back has no
   * namespace, its `Display` is the written text again, so the value is
   * written as before.
   */
  lemma ReparsedValueReads(ns: Namespace, v: PropertyValue)
    requires NameResolves(ns, XsiType(v))
    requires v.Unknown? ==> !IsBuiltinType(v.typeName)
    ensures DecodeValue(ValueContext(ValueText(v), XsiType(v), ns)) == Ok(ReparsedValue(ns, v))
    ensures ReparsedValue(ns, v).QName? && ReparsedValue(ns, v).qname.namespace.None? ==>
              ValueText(ReparsedValue(ns, v)) == ValueText(v)
  {
    DecodeWrittenValue(ns, v);
    if v.QName? {
      var r := ParseQName(ns, QNameTextAsWritten(v.qname));
      ParsedNameFormats(ns, QNameTextAsWritten(v.qname));
      if r.namespace.None? {
        DisplayWithoutNamespace(r);
      }
    }
  }

  lemma WriteReparsedValue(ns: Namespace, v: PropertyValue)
    requires ValueResolves(ns, ReparsedValue(ns, v))
    ensures WriteValue(ReparsedValue(ns, v)) == WriteValue(v)
  {
    if v.QName? {
      var t := QNameTextAsWritten(v.qname);
      ParsedNameFormats(ns, t);
      DisplayWithoutNamespace(ParseQName(ns, t));
    }
  }

  /** A value that already comes back from the reader is its own reading. */
  lemma ReparsedValueFixed(ns: Namespace, v: PropertyValue)
    requires ValueResolves(ns, v)
    ensures ReparsedValue(ns, v) == v
  {
    if v.QName? {
      DisplayWithoutNamespace(v.qname);
      FormatNameParses(ns, v.qname);
    }
  }

  lemma WriteReparsedOptionalValue(ns: Namespace, v: Option<PropertyValue>)
    requires v.Some? ==> ValueResolves(ns, ReparsedValue(ns, v.value))
    ensures WriteOptionalValue(ReparsedOptionalValue(ns, v)) == WriteOptionalValue(v)
  {
    if v.Some? {
      WriteReparsedValue(ns, v.value);
    }
  }

  lemma CollectReparsedOptionalValue(ns: Namespace, m: Namespace, v: Option<PropertyValue>)
    ensures CollectOptionalValue(m, ReparsedOptionalValue(ns, v)) == CollectOptionalValue(m, v)
  {
  }

  // ---------------------------------------------------------------------------
  // The table a document declares does not depend on its qualified-name values
  // ---------------------------------------------------------------------------

  lemma {:induction false} CollectReparsedProperty(ns: Namespace, m: Namespace, p: Property)
    ensures CollectProperty(m, ReparsedProperty(ns, p)) == CollectProperty(m, p)
    decreases p, 1
  {
    var m1 := CollectName(Put(m, "psf", NS_PSF), p.name);
    CollectReparsedOptionalValue(ns, m1, p.value);
    CollectReparsedProperties(ns, CollectOptionalValue(m1, p.value), p.properties);
  }

  lemma {:induction false} CollectReparsedProperties(ns: Namespace, m: Namespace, ps: seq<Property>)
    ensures CollectProperties(m, ReparsedProperties(ns, ps)) == CollectProperties(m, ps)
    decreases ps, 0
  {
    if |ps| > 0 {
      var r := ReparsedProperties(ns, ps);
      assert r[0] == ReparsedProperty(ns, ps[0]) && r[1..] == ReparsedProperties(ns, ps[1..]);
      CollectReparsedProperty(ns, m, ps[0]);
      CollectReparsedProperties(ns, CollectProperty(m, ps[0]), ps[1..]);
    }
  }

  lemma {:induction false} CollectReparsedScored(ns: Namespace, m: Namespace, sp: ScoredProperty)
    ensures CollectScored(m, ReparsedScored(ns, sp)) == CollectScored(m, sp)
    decreases sp, 1
  {
    var m1 := CollectOptionalName(CollectOptionalName(Put(m, "psf", NS_PSF), sp.name), sp.parameterRef);
    CollectReparsedOptionalValue(ns, m1, sp.value);
    var m2 := CollectOptionalValue(m1, sp.value);
    CollectReparsedScoredList(ns, m2, sp.scoredProperties);
    CollectReparsedProperties(ns, CollectScoredList(m2, sp.scoredProperties), sp.properties);
  }

  lemma {:induction false} CollectReparsedScoredList(ns: Namespace, m: Namespace, sps: seq<ScoredProperty>)
    ensures CollectScoredList(m, ReparsedScoredList(ns, sps)) == CollectScoredList(m, sps)
    decreases sps, 0
  {
    if |sps| > 0 {
      var r := ReparsedScoredList(ns, sps);
      assert r[0] == ReparsedScored(ns, sps[0]) && r[1..] == ReparsedScoredList(ns, sps[1..]);
      CollectReparsedScored(ns, m, sps[0]);
      CollectReparsedScoredList(ns, CollectScored(m, sps[0]), sps[1..]);
    }
  }

  lemma {:induction false} CollectReparsedOptions(ns: Namespace, m: Namespace, os: seq<PrintFeatureOption>)
    ensures CollectOptions(m, ReparsedOptions(ns, os)) == CollectOptions(m, os)
    decreases |os|
  {
    if |os| > 0 {
      var r := ReparsedOptions(ns, os);
      assert r[0] == ReparsedOption(ns, os[0]) && r[1..] == ReparsedOptions(ns, os[1..]);
      var m1 := CollectOptionalName(Put(m, "psf", NS_PSF), os[0].name);
      CollectReparsedScoredList(ns, m1, os[0].scoredProperties);
      CollectReparsedProperties(ns, CollectScoredList(m1, os[0].scoredProperties), os[0].properties);
      CollectReparsedOptions(ns, CollectOption(m, os[0]), os[1..]);
    }
  }

  lemma {:induction false} CollectReparsedFeature(ns: Namespace, m: Namespace, f: PrintFeature)
    ensures CollectFeature(m, ReparsedFeature(ns, f)) == CollectFeature(m, f)
    decreases f, 1
  {
    var m1 := CollectName(Put(m, "psf", NS_PSF), f.name);
    CollectReparsedOptions(ns, m1, f.options);
    var m2 := CollectOptions(m1, f.options);
    CollectReparsedProperties(ns, m2, f.properties);
    CollectReparsedFeatures(ns, CollectProperties(m2, f.properties), f.features);
  }

  lemma {:induction false} CollectReparsedFeatures(ns: Namespace, m: Namespace, fs: seq<PrintFeature>)
    ensures CollectFeatures(m, ReparsedFeatures(ns, fs)) == CollectFeatures(m, fs)
    decreases fs, 0
  {
    if |fs| > 0 {
      var r := ReparsedFeatures(ns, fs);
      assert r[0] == ReparsedFeature(ns, fs[0]) && r[1..] == ReparsedFeatures(ns, fs[1..]);
      CollectReparsedFeature(ns, m, fs[0]);
      CollectReparsedFeatures(ns, CollectFeature(m, fs[0]), fs[1..]);
    }
  }

  lemma {:induction false} CollectReparsedDefs(ns: Namespace, m: Namespace, ds: seq<ParameterDef>)
    ensures CollectDefs(m, ReparsedDefs(ns, ds)) == CollectDefs(m, ds)
    decreases |ds|
  {
    if |ds| > 0 {
      var r := ReparsedDefs(ns, ds);
      assert r[0] == ParameterDef(ds[0].name, ReparsedProperties(ns, ds[0].properties)) && r[1..] == ReparsedDefs(ns, ds[1..]);
      CollectReparsedProperties(ns, CollectName(Put(m, "psf", NS_PSF), ds[0].name), ds[0].properties);
      CollectReparsedDefs(ns, CollectDef(m, ds[0]), ds[1..]);
    }
  }

  lemma {:induction false} CollectReparsedInits(ns: Namespace, m: Namespace, inits: seq<ParameterInit>)
    ensures CollectInits(m, ReparsedInits(ns, inits)) == CollectInits(m, inits)
    decreases |inits|
  {
    if |inits| > 0 {
      var r := ReparsedInits(ns, inits);
      assert r[0] == ParameterInit(inits[0].name, ReparsedValue(ns, inits[0].value)) && r[1..] == ReparsedInits(ns, inits[1..]);
      CollectReparsedInits(ns, CollectInit(m, inits[0]), inits[1..]);
    }
  }

  /** Reading the qualified-name values back leaves the declared table as it was. */
  lemma ReparsedTable(d: PrintSchemaDocument)
    ensures DocumentTable(ReparsedDocument(d)) == DocumentTable(d)
  {
    var ns := DocumentTable(d);
    var ns0 := Put(map[], "psf", NS_PSF);
    match d
    case PrintCapabilities(c) =>
      CollectReparsedProperties(ns, ns0, c.properties);
      var m1 := CollectProperties(ns0, c.properties);
      CollectReparsedDefs(ns, m1, c.parameterDefs);
      CollectReparsedFeatures(ns, CollectDefs(m1, c.parameterDefs), c.features);
    case PrintTicket(t) =>
      CollectReparsedProperties(ns, ns0, t.properties);
      var m1 := CollectProperties(ns0, t.properties);
      CollectReparsedInits(ns, m1, t.parameterInits);
      CollectReparsedFeatures(ns, CollectInits(m1, t.parameterInits), t.features);
  }

  // ---------------------------------------------------------------------------
  // A tree whose read-back values resolve is written as before
  // ---------------------------------------------------------------------------

  lemma {:induction false} WriteReparsedProperty(ns: Namespace, p: Property)
    requires PropertyResolves(ns, ReparsedProperty(ns, p))
    ensures WriteProperty(ReparsedProperty(ns, p)) == WriteProperty(p)
    decreases p, 1
  {
    WriteReparsedOptionalValue(ns, p.value);
    WriteReparsedProperties(ns, p.properties);
  }

  lemma {:induction false} WriteReparsedProperties(ns: Namespace, ps: seq<Property>)
    requires PropertiesResolve(ns, ReparsedProperties(ns, ps))
    ensures WriteProperties(ReparsedProperties(ns, ps)) == WriteProperties(ps)
    decreases ps, 0
  {
    if |ps| > 0 {
      var r := ReparsedProperties(ns, ps);
      assert r[0] == ReparsedProperty(ns, ps[0]) && r[1..] == ReparsedProperties(ns, ps[1..]);
      WriteReparsedProperty(ns, ps[0]);
      WriteReparsedProperties(ns, ps[1..]);
    }
  }

  lemma {:induction false} WriteReparsedScored(ns: Namespace, sp: ScoredProperty)
    requires ScoredResolves(ns, ReparsedScored(ns, sp))
    ensures WriteScored(ReparsedScored(ns, sp)) == WriteScored(sp)
    decreases sp, 1
  {
    WriteReparsedOptionalValue(ns, sp.value);
    WriteReparsedScoredList(ns, sp.scoredProperties);
    WriteReparsedProperties(ns, sp.properties);
  }

  lemma {:induction false} WriteReparsedScoredList(ns: Namespace, sps: seq<ScoredProperty>)
    requires ScoredListResolves(ns, ReparsedScoredList(ns, sps))
    ensures WriteScoredList(ReparsedScoredList(ns, sps)) == WriteScoredList(sps)
    decreases sps, 0
  {
    if |sps| > 0 {
      var r := ReparsedScoredList(ns, sps);
      assert r[0] == ReparsedScored(ns, sps[0]) && r[1..] == ReparsedScoredList(ns, sps[1..]);
      WriteReparsedScored(ns, sps[0]);
      WriteReparsedScoredList(ns, sps[1..]);
    }
  }

  lemma {:induction false} WriteReparsedOptions(ns: Namespace, os: seq<PrintFeatureOption>)
    requires OptionsResolve(ns, ReparsedOptions(ns, os))
    ensures WriteOptions(ReparsedOptions(ns, os)) == WriteOptions(os)
    decreases |os|
  {
    if |os| > 0 {
      var r := ReparsedOptions(ns, os);
      assert r[0] == ReparsedOption(ns, os[0]) && r[1..] == ReparsedOptions(ns, os[1..]);
      assert OptionResolves(ns, r[0]);
      assert OptionsResolve(ns, r[1..]) by {
        forall i | 0 <= i < |r[1..]|
          ensures OptionResolves(ns, r[1..][i])
        {
          assert r[1..][i] == r[i + 1];
        }
      }
      WriteReparsedScoredList(ns, os[0].scoredProperties);
      WriteReparsedProperties(ns, os[0].properties);
      WriteReparsedOptions(ns, os[1..]);
    }
  }

  lemma {:induction false} WriteReparsedFeature(ns: Namespace, f: PrintFeature)
    requires FeatureResolves(ns, ReparsedFeature(ns, f))
    ensures WriteFeature(ReparsedFeature(ns, f)) == WriteFeature(f)
    decreases f, 1
  {
    WriteReparsedOptions(ns, f.options);
    WriteReparsedProperties(ns, f.properties);
    WriteReparsedFeatures(ns, f.features);
  }

  lemma {:induction false} WriteReparsedFeatures(ns: Namespace, fs: seq<PrintFeature>)
    requires FeaturesResolve(ns, ReparsedFeatures(ns, fs))
    ensures WriteFeatures(ReparsedFeatures(ns, fs)) == WriteFeatures(fs)
    decreases fs, 0
  {
    if |fs| > 0 {
      var r := ReparsedFeatures(ns, fs);
      assert r[0] == ReparsedFeature(ns, fs[0]) && r[1..] == ReparsedFeatures(ns, fs[1..]);
      WriteReparsedFeature(ns, fs[0]);
      WriteReparsedFeatures(ns, fs[1..]);
    }
  }

  lemma {:induction false} WriteReparsedDefs(ns: Namespace, ds: seq<ParameterDef>)
    requires DefsResolve(ns, ReparsedDefs(ns, ds))
    ensures WriteDefs(ReparsedDefs(ns, ds)) == WriteDefs(ds)
    decreases |ds|
  {
    if |ds| > 0 {
      var r := ReparsedDefs(ns, ds);
      assert r[0] == ParameterDef(ds[0].name, ReparsedProperties(ns, ds[0].properties)) && r[1..] == ReparsedDefs(ns, ds[1..]);
      assert PropertiesResolve(ns, r[0].properties);
      assert DefsResolve(ns, r[1..]) by {
        forall i | 0 <= i < |r[1..]|
          ensures NameResolves(ns, r[1..][i].name) && PropertiesResolve(ns, r[1..][i].properties)
        {
          assert r[1..][i] == r[i + 1];
        }
      }
      WriteReparsedProperties(ns, ds[0].properties);
      WriteReparsedDefs(ns, ds[1..]);
    }
  }

  lemma {:induction false} WriteReparsedInits(ns: Namespace, inits: seq<ParameterInit>)
    requires InitsResolve(ns, ReparsedInits(ns, inits))
    ensures WriteInits(ReparsedInits(ns, inits)) == WriteInits(inits)
    decreases |inits|
  {
    if |inits| > 0 {
      var r := ReparsedInits(ns, inits);
      assert r[0] == ParameterInit(inits[0].name, ReparsedValue(ns, inits[0].value)) && r[1..] == ReparsedInits(ns, inits[1..]);
      assert ValueResolves(ns, r[0].value);
      assert InitsResolve(ns, r[1..]) by {
        forall i | 0 <= i < |r[1..]|
          ensures NameResolves(ns, r[1..][i].name) && ValueResolves(ns, r[1..][i].value)
        {
          assert r[1..][i] == r[i + 1];
        }
      }
      WriteReparsedValue(ns, inits[0].value);
      WriteReparsedInits(ns, inits[1..]);
    }
  }

  /** A document whose read-back values resolve is written exactly as its read-back form. */
  lemma WriteReparsedDocument(d: PrintSchemaDocument)
    requires DocumentResolves(ReparsedDocument(d))
    ensures ToXml(ReparsedDocument(d)) == ToXml(d)
  {
    var ns := DocumentTable(d);
    ReparsedTable(d);
    match d
    case PrintCapabilities(c) =>
      WriteReparsedProperties(ns, c.properties);
      WriteReparsedDefs(ns, c.parameterDefs);
      WriteReparsedFeatures(ns, c.features);
    case PrintTicket(t) =>
      WriteReparsedProperties(ns, t.properties);
      WriteReparsedInits(ns, t.parameterInits);
      WriteReparsedFeatures(ns, t.features);
  }

  // ---------------------------------------------------------------------------
  // Reading the values back changes no shape
  // ---------------------------------------------------------------------------

  lemma {:induction false} ReparsedPropertyShape(ns: Namespace, p: Property)
    ensures PropertyShapeOk(ReparsedProperty(ns, p)) <==> PropertyShapeOk(p)
    decreases p, 1
  {
    ReparsedPropertiesShape(ns, p.properties);
  }

  lemma {:induction false} ReparsedPropertiesShape(ns: Namespace, ps: seq<Property>)
    ensures PropertiesShapeOk(ReparsedProperties(ns, ps)) <==> PropertiesShapeOk(ps)
    decreases ps, 0
  {
    if |ps| > 0 {
      var r := ReparsedProperties(ns, ps);
      assert r[0] == ReparsedProperty(ns, ps[0]) && r[1..] == ReparsedProperties(ns, ps[1..]);
      ReparsedPropertyShape(ns, ps[0]);
      ReparsedPropertiesShape(ns, ps[1..]);
    }
  }

  lemma {:induction false} ReparsedScoredShape(ns: Namespace, sp: ScoredProperty)
    ensures ScoredShapeOk(ReparsedScored(ns, sp)) <==> ScoredShapeOk(sp)
    decreases sp, 1
  {
    ReparsedScoredListShape(ns, sp.scoredProperties);
    ReparsedPropertiesShape(ns, sp.properties);
  }

  lemma {:induction false} ReparsedScoredListShape(ns: Namespace, sps: seq<ScoredProperty>)
    ensures ScoredListShapeOk(ReparsedScoredList(ns, sps)) <==> ScoredListShapeOk(sps)
    decreases sps, 0
  {
    if |sps| > 0 {
      var r := ReparsedScoredList(ns, sps);
      assert r[0] == ReparsedScored(ns, sps[0]) && r[1..] == ReparsedScoredList(ns, sps[1..]);
      ReparsedScoredShape(ns, sps[0]);
      ReparsedScoredListShape(ns, sps[1..]);
    }
  }

  lemma {:induction false} ReparsedOptionsShape(ns: Namespace, os: seq<PrintFeatureOption>)
    ensures OptionsShapeOk(ReparsedOptions(ns, os)) <==> OptionsShapeOk(os)
    decreases |os|
  {
    if |os| > 0 {
      var r := ReparsedOptions(ns, os);
      assert r[0] == ReparsedOption(ns, os[0]) && r[1..] == ReparsedOptions(ns, os[1..]);
      ReparsedScoredListShape(ns, os[0].scoredProperties);
      ReparsedPropertiesShape(ns, os[0].properties);
      ReparsedOptionsShape(ns, os[1..]);
    }
  }

  lemma {:induction false} ReparsedFeatureShape(ns: Namespace, f: PrintFeature)
    ensures FeatureShapeOk(ReparsedFeature(ns, f)) <==> FeatureShapeOk(f)
    decreases f, 1
  {
    ReparsedPropertiesShape(ns, f.properties);
    ReparsedOptionsShape(ns, f.options);
    ReparsedFeaturesShape(ns, f.features);
  }

  lemma {:induction false} ReparsedFeaturesShape(ns: Namespace, fs: seq<PrintFeature>)
    ensures FeaturesShapeOk(ReparsedFeatures(ns, fs)) <==> FeaturesShapeOk(fs)
    decreases fs, 0
  {
    if |fs| > 0 {
      var r := ReparsedFeatures(ns, fs);
      assert r[0] == ReparsedFeature(ns, fs[0]) && r[1..] == ReparsedFeatures(ns, fs[1..]);
      ReparsedFeatureShape(ns, fs[0]);
      ReparsedFeaturesShape(ns, fs[1..]);
    }
  }

  lemma {:induction false} ReparsedDefsShape(ns: Namespace, ds: seq<ParameterDef>)
    ensures DefsShapeOk(ReparsedDefs(ns, ds)) <==> DefsShapeOk(ds)
    decreases |ds|
  {
    if |ds| > 0 {
      var r := ReparsedDefs(ns, ds);
      assert r[0].properties == ReparsedProperties(ns, ds[0].properties) && r[1..] == ReparsedDefs(ns, ds[1..]);
      ReparsedPropertiesShape(ns, ds[0].properties);
      ReparsedDefsShape(ns, ds[1..]);
    }
  }

  lemma ReparsedDocumentShape(d: PrintSchemaDocument)
    ensures DocumentShapeOk(ReparsedDocument(d)) <==> DocumentShapeOk(d)
  {
    var ns := DocumentTable(d);
    match d
    case PrintCapabilities(c) =>
      ReparsedPropertiesShape(ns, c.properties);
      ReparsedDefsShape(ns, c.parameterDefs);
      ReparsedFeaturesShape(ns, c.features);
    case PrintTicket(t) =>
      ReparsedPropertiesShape(ns, t.properties);
      ReparsedFeaturesShape(ns, t.features);
  }

  // ---------------------------------------------------------------------------
  // Documents the plain round trip covers are their own reading
  // ---------------------------------------------------------------------------

  lemma {:induction false} ReparsedPropertyFixed(ns: Namespace, p: Property)
    requires PropertyResolves(ns, p)
    ensures ReparsedProperty(ns, p) == p
    decreases p, 1
  {
    if p.value.Some? {
      ReparsedValueFixed(ns, p.value.value);
    }
    ReparsedPropertiesFixed(ns, p.properties);
  }

  lemma {:induction false} ReparsedPropertiesFixed(ns: Namespace, ps: seq<Property>)
    requires PropertiesResolve(ns, ps)
    ensures ReparsedProperties(ns, ps) == ps
    decreases ps, 0
  {
    if |ps| > 0 {
      var r := ReparsedProperties(ns, ps);
      assert r[0] == ReparsedProperty(ns, ps[0]) && r[1..] == ReparsedProperties(ns, ps[1..]);
      ReparsedPropertyFixed(ns, ps[0]);
      ReparsedPropertiesFixed(ns, ps[1..]);
      ConsEqual(r, ps);
    }
  }

  lemma {:induction false} ReparsedScoredFixed(ns: Namespace, sp: ScoredProperty)
    requires ScoredResolves(ns, sp)
    ensures ReparsedScored(ns, sp) == sp
    decreases sp, 1
  {
    if sp.value.Some? {
      ReparsedValueFixed(ns, sp.value.value);
    }
    ReparsedScoredListFixed(ns, sp.scoredProperties);
    ReparsedPropertiesFixed(ns, sp.properties);
  }

  lemma {:induction false} ReparsedScoredListFixed(ns: Namespace, sps: seq<ScoredProperty>)
    requires ScoredListResolves(ns, sps)
    ensures ReparsedScoredList(ns, sps) == sps
    decreases sps, 0
  {
    if |sps| > 0 {
      var r := ReparsedScoredList(ns, sps);
      assert r[0] == ReparsedScored(ns, sps[0]) && r[1..] == ReparsedScoredList(ns, sps[1..]);
      ReparsedScoredFixed(ns, sps[0]);
      ReparsedScoredListFixed(ns, sps[1..]);
      ConsEqual(r, sps);
    }
  }

  lemma {:induction false} ReparsedOptionsFixed(ns: Namespace, os: seq<PrintFeatureOption>)
    requires OptionsResolve(ns, os)
    ensures ReparsedOptions(ns, os) == os
    decreases |os|
  {
    if |os| > 0 {
      var r := ReparsedOptions(ns, os);
      assert r[0] == ReparsedOption(ns, os[0]) && r[1..] == ReparsedOptions(ns, os[1..]);
      assert OptionResolves(ns, os[0]);
      assert OptionsResolve(ns, os[1..]) by {
        forall i | 0 <= i < |os[1..]|
          ensures OptionResolves(ns, os[1..][i])
        {
          assert os[1..][i] == os[i + 1];
        }
      }
      ReparsedScoredListFixed(ns, os[0].scoredProperties);
      ReparsedPropertiesFixed(ns, os[0].properties);
      ReparsedOptionsFixed(ns, os[1..]);
      ConsEqual(r, os);
    }
  }

  lemma {:induction false} ReparsedFeatureFixed(ns: Namespace, f: PrintFeature)
    requires FeatureResolves(ns, f)
    ensures ReparsedFeature(ns, f) == f
    decreases f, 1
  {
    ReparsedPropertiesFixed(ns, f.properties);
    ReparsedOptionsFixed(ns, f.options);
    ReparsedFeaturesFixed(ns, f.features);
  }

  lemma {:induction false} ReparsedFeaturesFixed(ns: Namespace, fs: seq<PrintFeature>)
    requires FeaturesResolve(ns, fs)
    ensures ReparsedFeatures(ns, fs) == fs
    decreases fs, 0
  {
    if |fs| > 0 {
      var r := ReparsedFeatures(ns, fs);
      assert r[0] == ReparsedFeature(ns, fs[0]) && r[1..] == ReparsedFeatures(ns, fs[1..]);
      ReparsedFeatureFixed(ns, fs[0]);
      ReparsedFeaturesFixed(ns, fs[1..]);
      ConsEqual(r, fs);
    }
  }

  lemma {:induction false} ReparsedDefsFixed(ns: Namespace, ds: seq<ParameterDef>)
    requires DefsResolve(ns, ds)
    ensures ReparsedDefs(ns, ds) == ds
    decreases |ds|
  {
    if |ds| > 0 {
      var r := ReparsedDefs(ns, ds);
      assert r[0] == ParameterDef(ds[0].name, ReparsedProperties(ns, ds[0].properties)) && r[1..] == ReparsedDefs(ns, ds[1..]);
      assert DefsResolve(ns, ds[1..]) by {
        forall i | 0 <= i < |ds[1..]|
          ensures NameResolves(ns, ds[1..][i].name) && PropertiesResolve(ns, ds[1..][i].properties)
        {
          assert ds[1..][i] == ds[i + 1];
        }
      }
      ReparsedPropertiesFixed(ns, ds[0].properties);
      ReparsedDefsFixed(ns, ds[1..]);
      ConsEqual(r, ds);
    }
  }

  lemma {:induction false} ReparsedInitsFixed(ns: Namespace, inits: seq<ParameterInit>)
    requires InitsResolve(ns, inits)
    ensures ReparsedInits(ns, inits) == inits
    decreases |inits|
  {
    if |inits| > 0 {
      var r := ReparsedInits(ns, inits);
      assert r[0] == ParameterInit(inits[0].name, ReparsedValue(ns, inits[0].value)) && r[1..] == ReparsedInits(ns, inits[1..]);
      assert InitsResolve(ns, inits[1..]) by {
        forall i | 0 <= i < |inits[1..]|
          ensures NameResolves(ns, inits[1..][i].name) && ValueResolves(ns, inits[1..][i].value)
        {
          assert inits[1..][i] == inits[i + 1];
        }
      }
      ReparsedValueFixed(ns, inits[0].value);
      ReparsedInitsFixed(ns, inits[1..]);
      ConsEqual(r, inits);
    }
  }

  /** A document whose names and values resolve is its own reading. */
  lemma ReparsedDocumentFixed(d: PrintSchemaDocument)
    requires DocumentResolves(d)
    ensures ReparsedDocument(d) == d
  {
    var ns := DocumentTable(d);
    DocumentParts(d);
    match d
    case PrintCapabilities(c) =>
      ReparsedPropertiesFixed(ns, c.properties);
      ReparsedDefsFixed(ns, c.parameterDefs);
      ReparsedFeaturesFixed(ns, c.features);
    case PrintTicket(t) =>
      ReparsedPropertiesFixed(ns, t.properties);
      ReparsedInitsFixed(ns, t.parameterInits);
      ReparsedFeaturesFixed(ns, t.features);
  }

  // ---------------------------------------------------------------------------
  // The round trip of the serializer as written
  // ---------------------------------------------------------------------------

  /**
   * Writing a document as the source does and reading it back gives the
   * document with its qualified-name values read back, rebuilt as
   * `RereadDocument` says, whenever that read-back document resolves.
   */
  lemma WrittenDocumentReadBack(d: PrintSchemaDocument)
    requires DocumentResolves(ReparsedDocument(d))
    ensures Run(ReadDocument(ToXml(d))) == Ok(RereadDocument(ReparsedDocument(d)))
  {
    WriteReparsedDocument(d);
    DocumentReadBack(ReparsedDocument(d));
  }

  /**
   * What the serializer's tests check, for the serializer as written:
   * serialising, parsing and serialising again gives the same events, even
   * though a namespaced qualified-name value does not come back as itself.
   */
  lemma SerializeParseSerializeAsWritten(d: PrintSchemaDocument)
    requires DocumentResolves(ReparsedDocument(d)) && DocumentShapeOk(d)
    ensures Run(ReadDocument(ToXml(d))) == Ok(ReparsedDocument(d))
    ensures ToXml(Run(ReadDocument(ToXml(d))).value) == ToXml(d)
  {
    WrittenDocumentReadBack(d);
    ReparsedDocumentShape(d);
    DocumentFixed(ReparsedDocument(d));
    WriteReparsedDocument(d);
  }

  // ---------------------------------------------------------------------------
  // An example: a keyword-valued property
  // ---------------------------------------------------------------------------

  /** A name of the Print Schema Keywords vocabulary, `psk:<local>`. */
  function Psk(local: string): OwnedName
  {
    Qualified(local, NS_PSK, Some("psk"))
  }

  /** A ticket whose one property `psk:X` holds the keyword `psk:Y` as its value. */
  function KeywordExample(): PrintSchemaDocument
  {
    PrintTicket(PrintTicketDocument([Property(Psk("X"), Some(QName(Psk("Y"))), [])], [], []))
  }

  const KeywordTable: Namespace := map["psf" := NS_PSF, "psk" := NS_PSK, "xsi" := NS_XSI, "xsd" := NS_XSD]

  /** The keyword property name adds the `psk` binding after `psf`. */
  lemma KeywordNameCollected()
    ensures CollectName(Put(map["psf" := NS_PSF], "psf", NS_PSF), Psk("X")) == map["psf" := NS_PSF, "psk" := NS_PSK]
  {
    assert Put(map["psf" := NS_PSF], "psf", NS_PSF) == map["psf" := NS_PSF];
  }

  /** The keyword value adds `xsi`, then its type `xsd:QName` adds `xsd`. */
  lemma KeywordValueCollected()
    ensures CollectOptionalValue(map["psf" := NS_PSF, "psk" := NS_PSK], Some(QName(Psk("Y")))) == KeywordTable
  {
    var ns1: Namespace := map["psf" := NS_PSF, "psk" := NS_PSK];
    var ns2: Namespace := map["psf" := NS_PSF, "psk" := NS_PSK, "xsi" := NS_XSI];
    assert Put(Put(ns1, "psf", NS_PSF), "xsi", NS_XSI) == ns2;
    assert CollectName(ns2, XsdName("QName")) == KeywordTable;
  }

  lemma KeywordExampleTable()
    ensures DocumentTable(KeywordExample()) == KeywordTable
  {
    var p := Property(Psk("X"), Some(QName(Psk("Y"))), []);
    KeywordNameCollected();
    KeywordValueCollected();
    assert Put(map[], "psf", NS_PSF) == map["psf" := NS_PSF];
    assert CollectProperty(map["psf" := NS_PSF], p) == KeywordTable;
    assert [p][1..] == [];
  }

  /** The name the reader makes of `{http://...printschemakeywords}psk:Y`. */
  function KeywordAsRead(): OwnedName
  {
    ParseQName(KeywordTable, QNameTextAsWritten(Psk("Y")))
  }

  /**
   * `Display` of a name with a namespace and a prefix starts with a brace,
   * and so does the prefix `parse_qname` reads from it.
   */
  lemma BracedDisplayParses(ns: Namespace, q: OwnedName)
    requires q.namespace.Some? && q.prefix.Some?
    ensures |DisplayName(q)| > 0 && DisplayName(q)[0] == '{'
    ensures ParseQName(ns, DisplayName(q)).prefix.Some?
    ensures |ParseQName(ns, DisplayName(q)).prefix.value| > 0 && ParseQName(ns, DisplayName(q)).prefix.value[0] == '{'
  {
    var t := DisplayName(q);
    var head := "{" + q.namespace.value + "}" + q.prefix.value;
    assert t == head + ":" + q.localName;
    assert t[|head|] == ':';
    var r := ParseQName(ns, t);
    assert t == r.prefix.value + ":" + r.localName;
  }

  /** No prefix the example's table binds starts with a brace. */
  lemma KeywordTableUnbraced(s: string)
    requires |s| > 0 && s[0] == '{'
    ensures s !in KeywordTable
  {
    assert "psf"[0] != '{' && "psk"[0] != '{' && "xsi"[0] != '{' && "xsd"[0] != '{';
  }

  /** A keywords name has the prefix `psk`, which does not start with a brace. */
  lemma PskPrefix(local: string)
    ensures Psk(local).prefix == Some("psk") && Psk(local).namespace == Some(NS_PSK)
    ensures "psk"[0] != '{'
  {
  }

  /**
   * The text is split at a colon after `{`: the prefix read back starts with
   * a brace, nothing binds it, and `Display` spells the written text again.
   */
  lemma KeywordAsReadShape()
    ensures KeywordAsRead().prefix.Some? && |KeywordAsRead().prefix.value| > 0 && KeywordAsRead().prefix.value[0] == '{'
    ensures KeywordAsRead().namespace.None?
    ensures KeywordAsRead() != Psk("Y")
    ensures QNameTextAsWritten(KeywordAsRead()) == QNameTextAsWritten(Psk("Y"))
    ensures |QNameTextAsWritten(Psk("Y"))| > 0 && QNameTextAsWritten(Psk("Y"))[0] == '{'
  {
    var t := QNameTextAsWritten(Psk("Y"));
    var r := KeywordAsRead();
    PskPrefix("Y");
    BracedDisplayParses(KeywordTable, Psk("Y"));
    ParsedNameFormats(KeywordTable, t);
    KeywordTableUnbraced(r.prefix.value);
    DisplayWithoutNamespace(r);
  }

  /** The example as the reader rebuilds it. */
  function KeywordExampleAsRead(): PrintSchemaDocument
  {
    PrintTicket(PrintTicketDocument([Property(Psk("X"), Some(QName(KeywordAsRead())), [])], [], []))
  }

  /** Reading the values back changes the example's one property into the rebuilt one. */
  lemma KeywordPropertyReparsed()
    ensures ReparsedProperties(KeywordTable, [Property(Psk("X"), Some(QName(Psk("Y"))), [])])
            == [Property(Psk("X"), Some(QName(KeywordAsRead())), [])]
  {
    var q := Property(Psk("X"), Some(QName(Psk("Y"))), []);
    assert [q][1..] == [];
  }

  lemma KeywordExampleReparsed()
    ensures ReparsedDocument(KeywordExample()) == KeywordExampleAsRead()
    ensures KeywordExampleAsRead() != KeywordExample()
  {
    KeywordExampleTable();
    KeywordAsReadShape();
    KeywordPropertyReparsed();
    var p := Property(Psk("X"), Some(QName(KeywordAsRead())), []);
    assert p != Property(Psk("X"), Some(QName(Psk("Y"))), []);
  }

  /** The example's table binds `xsi`, and the value type `xsd:QName` resolves through it. */
  lemma KeywordTableTypes()
    ensures Lookup(KeywordTable, "xsi") == Some(NS_XSI)
    ensures NameResolves(KeywordTable, XsdName("QName"))
  {
    assert ':' !in "xsd";
  }

  /** Text starting with a brace is not whitespace only. */
  lemma BracedNotWhitespace(t: string)
    requires |t| > 0 && t[0] == '{'
    ensures !AllWhitespace(t)
  {
    assert !IsXmlWhitespace(t[0]);
  }

  lemma KeywordAsReadResolves()
    ensures ValueResolves(KeywordTable, QName(KeywordAsRead()))
  {
    var t := QNameTextAsWritten(Psk("Y"));
    KeywordAsReadShape();
    ParsedNameFormats(KeywordTable, t);
    KeywordTableTypes();
    BracedNotWhitespace(t);
  }

  /** The example's property name `psk:X` resolves through the example's table. */
  lemma KeywordNameResolves()
    ensures NameResolves(KeywordTable, Psk("X"))
  {
    assert ':' !in "psk";
  }

  lemma KeywordExampleAsReadResolves()
    ensures DocumentResolves(KeywordExampleAsRead())
  {
    var p := Property(Psk("X"), Some(QName(KeywordAsRead())), []);
    KeywordExampleTable();
    KeywordExampleReparsed();
    ReparsedTable(KeywordExample());
    KeywordAsReadResolves();
    KeywordNameResolves();
    assert [p][1..] == [];
  }

  /** The example has the shape the reader's rebuild leaves alone. */
  lemma KeywordExampleShape()
    ensures DocumentShapeOk(KeywordExample())
  {
    assert [Property(Psk("X"), Some(QName(Psk("Y"))), [])][1..] == [];
  }

  /**
   * The keyword value does not come back as itself, yet the document read
   * back is serialised to the same events as the document written.
   */
  lemma KeywordExampleRoundTrip()
    ensures Run(ReadDocument(ToXml(KeywordExample()))) == Ok(KeywordExampleAsRead())
    ensures Run(ReadDocument(ToXml(KeywordExample()))) != Ok(KeywordExample())
    ensures ToXml(Run(ReadDocument(ToXml(KeywordExample()))).value) == ToXml(KeywordExample())
  {
    KeywordExampleReparsed();
    KeywordExampleAsReadResolves();
    KeywordExampleShape();
    hide *;
    SerializeParseSerializeAsWritten(KeywordExample());
  }
}
