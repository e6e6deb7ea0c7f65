/**
 * What the serializer (src/ticket/print_schema_serializer.rs) promises about
 * its output on every document: the writer events nest properly, and the
 * namespace table holds the bindings the written names and types rely on.
 */
module SerializerProperties {
  import opened Base
  import opened XmlName
  import opened Integers
  import opened PrintSchema
  import opened Serializer

  // ---------------------------------------------------------------------------
  // Nesting
  // ---------------------------------------------------------------------------

  /**
   * Replays events against a stack of open element names: a start pushes, an
   * end must close the innermost open element. `None` when an end does not.
   */
  function Nest(events: seq<WriterEvent>, open: seq<string>): Option<seq<string>>
  {
    if |events| == 0 then Some(open)
    else match events[0]
      case Open(e, _, _) => Nest(events[1..], open + [e])
      case Close(e) =>
        if |open| > 0 && open[|open| - 1] == e then Nest(events[1..], open[..|open| - 1]) else None
      case Text(_) => Nest(events[1..], open)
  }

  /** Events that close every element they open, innermost first. */
  ghost predicate Balanced(events: seq<WriterEvent>)
  {
    forall open: seq<string> :: Nest(events, open) == Some(open)
  }

  /** Replaying two lists back to back is replaying the first, then the second from where it left off. */
  lemma {:induction false} NestAppend(a: seq<WriterEvent>, b: seq<WriterEvent>, open: seq<string>)
    ensures Nest(a + b, open) == match Nest(a, open) case Some(s) => Nest(b, s) case None => None
    decreases |a|
  {
    if |a| == 0 {
      assert a + b == b;
    } else {
      assert (a + b)[0] == a[0] && (a + b)[1..] == a[1..] + b;
      match a[0]
      case Open(e, _, _) => NestAppend(a[1..], b, open + [e]);
      case Close(e) =>
        if |open| > 0 && open[|open| - 1] == e {
          NestAppend(a[1..], b, open[..|open| - 1]);
        }
      case Text(_) => NestAppend(a[1..], b, open);
    }
  }

  lemma BalancedAppend(a: seq<WriterEvent>, b: seq<WriterEvent>)
    requires Balanced(a) && Balanced(b)
    ensures Balanced(a + b)
  {
    forall open: seq<string>
      ensures Nest(a + b, open) == Some(open)
    {
      NestAppend(a, b, open);
      assert Nest(a, open) == Some(open);
      assert Nest(b, open) == Some(open);
    }
  }

  /** A start tag, balanced content, and the matching end tag. */
  lemma Wrapped(e: string, attrs: seq<WriterAttribute>, ns: Namespace, body: seq<WriterEvent>)
    requires Balanced(body)
    ensures Balanced([Open(e, attrs, ns)] + body + [Close(e)])
  {
    forall open: seq<string>
      ensures Nest([Open(e, attrs, ns)] + body + [Close(e)], open) == Some(open)
    {
      var inner := open + [e];
      NestAppend([Open(e, attrs, ns)], body + [Close(e)], open);
      assert [Open(e, attrs, ns)] + body + [Close(e)] == [Open(e, attrs, ns)] + (body + [Close(e)]);
      assert Nest([Open(e, attrs, ns)], open) == Some(inner) by {
        assert [Open(e, attrs, ns)][1..] == [];
      }
      NestAppend(body, [Close(e)], inner);
      assert Nest(body, inner) == Some(inner);
      assert inner[..|inner| - 1] == open;
      assert [Close(e)][1..] == [];
    }
  }

  lemma EmptyBalanced()
    ensures Balanced([])
  {
  }

  lemma ValueBalanced(v: PropertyValue)
    ensures Balanced(WriteValue(v))
  {
    var open := [Open(PsfElement("Value"), [WriterAttribute("xsi:type", FormatName(XsiType(v)))], map[])];
    assert Balanced([Text(ValueText(v))]) by {
      forall s: seq<string> ensures Nest([Text(ValueText(v))], s) == Some(s) {
        assert [Text(ValueText(v))][1..] == [];
      }
    }
    Wrapped(PsfElement("Value"), [WriterAttribute("xsi:type", FormatName(XsiType(v)))], map[], [Text(ValueText(v))]);
    assert WriteValue(v) == open + [Text(ValueText(v))] + [Close(PsfElement("Value"))];
  }

  lemma OptionalValueBalanced(v: Option<PropertyValue>)
    ensures Balanced(WriteOptionalValue(v))
  {
    if v.Some? {
      ValueBalanced(v.value);
    }
  }

  /** `Property::write_to`: a start, the value, the sub-properties, one end. */
  lemma {:induction false} PropertyBalanced(p: Property)
    ensures Balanced(WriteProperty(p))
    decreases p, 1
  {
    OptionalValueBalanced(p.value);
    PropertiesBalanced(p.properties);
    BalancedAppend(WriteOptionalValue(p.value), WriteProperties(p.properties));
    Wrapped(PsfElement("Property"), NameAttribute(p.name), map[], WriteOptionalValue(p.value) + WriteProperties(p.properties));
    assert WriteProperty(p) == [Open(PsfElement("Property"), NameAttribute(p.name), map[])]
      + (WriteOptionalValue(p.value) + WriteProperties(p.properties)) + [Close(PsfElement("Property"))];
  }

  lemma {:induction false} PropertiesBalanced(ps: seq<Property>)
    ensures Balanced(WriteProperties(ps))
    decreases ps, 0
  {
    if |ps| > 0 {
      PropertyBalanced(ps[0]);
      PropertiesBalanced(ps[1..]);
      BalancedAppend(WriteProperty(ps[0]), WriteProperties(ps[1..]));
    }
  }

  lemma ParameterRefBalanced(r: Option<OwnedName>)
    ensures Balanced(WriteParameterRef(r))
  {
    if r.Some? {
      Wrapped(PsfElement("ParameterRef"), NameAttribute(r.value), map[], []);
      assert WriteParameterRef(r) == [Open(PsfElement("ParameterRef"), NameAttribute(r.value), map[])] + [] + [Close(PsfElement("ParameterRef"))];
    }
  }

  /** `ScoredProperty::write_to`: a start, the reference, the value, the nested scored properties, the properties, one end. */
  lemma {:induction false} ScoredBalanced(sp: ScoredProperty)
    ensures Balanced(WriteScored(sp))
    decreases sp, 1
  {
    var body := WriteParameterRef(sp.parameterRef) + WriteOptionalValue(sp.value)
      + WriteScoredList(sp.scoredProperties) + WriteProperties(sp.properties);
    ParameterRefBalanced(sp.parameterRef);
    OptionalValueBalanced(sp.value);
    ScoredListBalanced(sp.scoredProperties);
    PropertiesBalanced(sp.properties);
    BalancedAppend(WriteParameterRef(sp.parameterRef), WriteOptionalValue(sp.value));
    BalancedAppend(WriteParameterRef(sp.parameterRef) + WriteOptionalValue(sp.value), WriteScoredList(sp.scoredProperties));
    BalancedAppend(WriteParameterRef(sp.parameterRef) + WriteOptionalValue(sp.value) + WriteScoredList(sp.scoredProperties),
                   WriteProperties(sp.properties));
    var start := StartWithOptionalName(PsfElement("ScoredProperty"), sp.name);
    Wrapped(PsfElement("ScoredProperty"), start.attributes, map[], body);
    assert WriteScored(sp) == [start] + body + [Close(PsfElement("ScoredProperty"))];
  }

  lemma {:induction false} ScoredListBalanced(sps: seq<ScoredProperty>)
    ensures Balanced(WriteScoredList(sps))
    decreases sps, 0
  {
    if |sps| > 0 {
      ScoredBalanced(sps[0]);
      ScoredListBalanced(sps[1..]);
      BalancedAppend(WriteScored(sps[0]), WriteScoredList(sps[1..]));
    }
  }

  lemma OptionBalanced(o: PrintFeatureOption)
    ensures Balanced(WriteOption(o))
  {
    ScoredListBalanced(o.scoredProperties);
    PropertiesBalanced(o.properties);
    BalancedAppend(WriteScoredList(o.scoredProperties), WriteProperties(o.properties));
    var start := StartWithOptionalName(PsfElement("Option"), o.name);
    Wrapped(PsfElement("Option"), start.attributes, map[], WriteScoredList(o.scoredProperties) + WriteProperties(o.properties));
    assert WriteOption(o) == [start] + (WriteScoredList(o.scoredProperties) + WriteProperties(o.properties)) + [Close(PsfElement("Option"))];
  }

  lemma {:induction false} OptionsBalanced(os: seq<PrintFeatureOption>)
    ensures Balanced(WriteOptions(os))
  {
    if |os| > 0 {
      OptionBalanced(os[0]);
      OptionsBalanced(os[1..]);
      BalancedAppend(WriteOption(os[0]), WriteOptions(os[1..]));
    }
  }

  /** `PrintFeature::write_to`: a start, the options, the properties, the sub-features, one end. */
  lemma {:induction false} FeatureBalanced(f: PrintFeature)
    ensures Balanced(WriteFeature(f))
    decreases f, 1
  {
    var body := WriteOptions(f.options) + WriteProperties(f.properties) + WriteFeatures(f.features);
    OptionsBalanced(f.options);
    PropertiesBalanced(f.properties);
    FeaturesBalanced(f.features);
    BalancedAppend(WriteOptions(f.options), WriteProperties(f.properties));
    BalancedAppend(WriteOptions(f.options) + WriteProperties(f.properties), WriteFeatures(f.features));
    Wrapped(PsfElement("Feature"), NameAttribute(f.name), map[], body);
    assert WriteFeature(f) == [Open(PsfElement("Feature"), NameAttribute(f.name), map[])] + body + [Close(PsfElement("Feature"))];
  }

  lemma {:induction false} FeaturesBalanced(fs: seq<PrintFeature>)
    ensures Balanced(WriteFeatures(fs))
    decreases fs, 0
  {
    if |fs| > 0 {
      FeatureBalanced(fs[0]);
      FeaturesBalanced(fs[1..]);
      BalancedAppend(WriteFeature(fs[0]), WriteFeatures(fs[1..]));
    }
  }

  lemma {:induction false} DefsBalanced(ds: seq<ParameterDef>)
    ensures Balanced(WriteDefs(ds))
  {
    if |ds| > 0 {
      PropertiesBalanced(ds[0].properties);
      Wrapped(PsfElement("ParameterDef"), NameAttribute(ds[0].name), map[], WriteProperties(ds[0].properties));
      DefsBalanced(ds[1..]);
      BalancedAppend(WriteDef(ds[0]), WriteDefs(ds[1..]));
    }
  }

  lemma {:induction false} InitsBalanced(inits: seq<ParameterInit>)
    ensures Balanced(WriteInits(inits))
  {
    if |inits| > 0 {
      ValueBalanced(inits[0].value);
      Wrapped(PsfElement("ParameterInit"), NameAttribute(inits[0].name), map[], WriteValue(inits[0].value));
      InitsBalanced(inits[1..]);
      BalancedAppend(WriteInit(inits[0]), WriteInits(inits[1..]));
    }
  }

  /** The body of a document root: properties, then the parameters, then the features. */
  lemma RootBodyBalanced(props: seq<Property>, middle: seq<WriterEvent>, features: seq<PrintFeature>)
    requires Balanced(middle)
    ensures Balanced(WriteProperties(props) + middle + WriteFeatures(features))
  {
    PropertiesBalanced(props);
    FeaturesBalanced(features);
    BalancedAppend(WriteProperties(props), middle);
    BalancedAppend(WriteProperties(props) + middle, WriteFeatures(features));
  }

  lemma CapabilitiesXmlBalanced(c: PrintCapabilitiesDocument)
    ensures Balanced(ToXml(PrintCapabilities(c)))
  {
    var d := PrintCapabilities(c);
    var body := WriteProperties(c.properties) + WriteDefs(c.parameterDefs) + WriteFeatures(c.features);
    var start := Open(PsfElement("PrintCapabilities"), VersionAttribute, DocumentTable(d));
    assert ToXml(d) == [start] + body + [Close(PsfElement("PrintCapabilities"))];
    hide *;
    DefsBalanced(c.parameterDefs);
    RootBodyBalanced(c.properties, WriteDefs(c.parameterDefs), c.features);
    Wrapped(PsfElement("PrintCapabilities"), VersionAttribute, DocumentTable(d), body);
  }

  lemma TicketXmlBalanced(t: PrintTicketDocument)
    ensures Balanced(ToXml(PrintTicket(t)))
  {
    var d := PrintTicket(t);
    var body := WriteProperties(t.properties) + WriteInits(t.parameterInits) + WriteFeatures(t.features);
    var start := Open(PsfElement("PrintTicket"), VersionAttribute, DocumentTable(d));
    assert ToXml(d) == [start] + body + [Close(PsfElement("PrintTicket"))];
    hide *;
    InitsBalanced(t.parameterInits);
    RootBodyBalanced(t.properties, WriteInits(t.parameterInits), t.features);
    Wrapped(PsfElement("PrintTicket"), VersionAttribute, DocumentTable(d), body);
  }

  /**
   * `to_xml` writes one root element, balanced: every element the serializer
   * opens it also closes, innermost first.
   */
  lemma ToXmlBalanced(d: PrintSchemaDocument)
    ensures Balanced(ToXml(d))
    ensures |ToXml(d)| >= 2 && ToXml(d)[0].Open? && ToXml(d)[|ToXml(d)| - 1].Close?
    ensures ToXml(d)[0].attributes == [WriterAttribute("version", "1")]
    ensures ToXml(d)[0].element == (if d.PrintCapabilities? then "psf:PrintCapabilities" else "psf:PrintTicket")
  {
    hide DocumentTable;
    match d
    case PrintCapabilities(c) => CapabilitiesXmlBalanced(c);
    case PrintTicket(t) => TicketXmlBalanced(t);
  }

  /** A close with nothing open is not balanced, so `Balanced` is not vacuous. */
  lemma StrayCloseUnbalanced(e: string)
    ensures !Balanced([Close(e)])
  {
    assert Nest([Close(e)], []) == None;
  }

  // ---------------------------------------------------------------------------
  // The namespace table
  // ---------------------------------------------------------------------------

  /**
   * Collecting a value binds `psf` and `xsi` and then its type's prefix; the
   * built-in types all bind `xsd`. Bindings already present are never changed.
   */
  lemma ValueBindings(ns: Namespace, v: PropertyValue)
    ensures "psf" in CollectValue(ns, v) && "xsi" in CollectValue(ns, v)
    ensures !v.Unknown? ==> "xsd" in CollectValue(ns, v)
    ensures "psf" !in ns ==> CollectValue(ns, v)["psf"] == NS_PSF
    ensures "psf" !in ns && "xsi" !in ns ==> CollectValue(ns, v)["xsi"] == NS_XSI
    ensures v.Unknown? && v.typeName.prefix.Some? && v.typeName.namespace.Some? ==>
      v.typeName.prefix.value in CollectValue(ns, v)
  {
  }

  /**
   * The qualified name inside a `QName` value contributes nothing: the table is
   * the same whatever name the value holds.
   */
  lemma QNameInnerNameNotCollected(ns: Namespace, q: OwnedName, q': OwnedName)
    ensures CollectValue(ns, QName(q)) == CollectValue(ns, QName(q'))
    ensures CollectValue(ns, QName(q)).Keys == ns.Keys + {"psf", "xsi", "xsd"}
  {
  }

  /** A name without a prefix, or without a namespace, never adds a binding. */
  lemma PartialNameAddsNothing(ns: Namespace, local: string, prefix: string, uri: string)
    ensures CollectName(ns, Local(local)) == ns
    ensures CollectName(ns, OwnedName(local, None, Some(prefix))) == ns
    ensures CollectName(ns, OwnedName(local, Some(uri), None)) == ns
  {
  }

  /** A prefixed, namespaced name binds its prefix to its namespace unless the prefix is already bound. */
  lemma FullNameBindsPrefix(ns: Namespace, local: string, prefix: string, uri: string)
    requires prefix !in ns
    ensures CollectName(ns, Qualified(local, uri, Some(prefix))) == ns[prefix := uri]
  {
  }

  /** The first binding of a prefix wins: a later name with the same prefix and another URI does not replace it. */
  lemma FirstBindingWins(ns: Namespace, local: string, prefix: string, uri: string)
    requires prefix in ns
    ensures CollectName(ns, Qualified(local, uri, Some(prefix))) == ns
  {
  }
}
