/**
 * What the reader rebuilds from a written tree. The serializer writes a
 * node's `psf:Value` (and a scored property's `psf:ParameterRef`) before
 * the node's children, but the reader clears the pending value at the start
 * of every `psf:Property` and `psf:ScoredProperty`, and the pending
 * reference at the start of every `psf:ScoredProperty`
 * (src/ticket/document/reader.rs:241-242, 258, 396-397, 415). A value
 * followed by children is therefore lost, and so is a reference followed by
 * scored children. `Reread*` states exactly which parts survive;
 * `*ShapeOk` says when nothing is lost.
 */
module ReadBack {
  import opened Base
  import opened XmlName
  import opened PrintSchema

  // ---------------------------------------------------------------------------
  // The rebuilt tree
  // ---------------------------------------------------------------------------

  function RereadProperty(p: Property): Property
    decreases p
  {
    Property(p.name, if |p.properties| > 0 then None else p.value, RereadProperties(p.properties))
  }

  function RereadProperties(ps: seq<Property>): (r: seq<Property>)
    ensures |r| == |ps|
    decreases ps
  {
    if |ps| == 0 then [] else [RereadProperty(ps[0])] + RereadProperties(ps[1..])
  }

  function RereadScored(sp: ScoredProperty): ScoredProperty
    decreases sp
  {
    ScoredProperty(
      sp.name,
      if |sp.scoredProperties| > 0 then None else sp.parameterRef,
      if |sp.scoredProperties| > 0 || |sp.properties| > 0 then None else sp.value,
      RereadScoredList(sp.scoredProperties),
      RereadProperties(sp.properties))
  }

  function RereadScoredList(sps: seq<ScoredProperty>): (r: seq<ScoredProperty>)
    ensures |r| == |sps|
    decreases sps
  {
    if |sps| == 0 then [] else [RereadScored(sps[0])] + RereadScoredList(sps[1..])
  }

  function RereadOption(o: PrintFeatureOption): PrintFeatureOption
  {
    PrintFeatureOption(o.name, RereadScoredList(o.scoredProperties), RereadProperties(o.properties))
  }

  function RereadOptions(os: seq<PrintFeatureOption>): (r: seq<PrintFeatureOption>)
    ensures |r| == |os|
  {
    if |os| == 0 then [] else [RereadOption(os[0])] + RereadOptions(os[1..])
  }

  function RereadFeature(f: PrintFeature): PrintFeature
    decreases f
  {
    PrintFeature(f.name, RereadProperties(f.properties), RereadOptions(f.options), RereadFeatures(f.features))
  }

  function RereadFeatures(fs: seq<PrintFeature>): (r: seq<PrintFeature>)
    ensures |r| == |fs|
    decreases fs
  {
    if |fs| == 0 then [] else [RereadFeature(fs[0])] + RereadFeatures(fs[1..])
  }

  function RereadDefs(ds: seq<ParameterDef>): (r: seq<ParameterDef>)
    ensures |r| == |ds|
  {
    if |ds| == 0 then [] else [ParameterDef(ds[0].name, RereadProperties(ds[0].properties))] + RereadDefs(ds[1..])
  }

  /** Parameter initialisations have no children, so they always come back whole. */
  function RereadDocument(d: PrintSchemaDocument): PrintSchemaDocument
  {
    match d
    case PrintCapabilities(c) =>
      PrintCapabilities(PrintCapabilitiesDocument(
        RereadProperties(c.properties), RereadDefs(c.parameterDefs), RereadFeatures(c.features)))
    case PrintTicket(t) =>
      PrintTicket(PrintTicketDocument(RereadProperties(t.properties), t.parameterInits, RereadFeatures(t.features)))
  }

  // ---------------------------------------------------------------------------
  // Trees that lose nothing
  // ---------------------------------------------------------------------------

  predicate PropertyShapeOk(p: Property)
    decreases p
  {
    (p.value.Some? ==> |p.properties| == 0) && PropertiesShapeOk(p.properties)
  }

  predicate PropertiesShapeOk(ps: seq<Property>)
    decreases ps
  {
    |ps| == 0 || (PropertyShapeOk(ps[0]) && PropertiesShapeOk(ps[1..]))
  }

  predicate ScoredShapeOk(sp: ScoredProperty)
    decreases sp
  {
    && (sp.value.Some? ==> |sp.scoredProperties| == 0 && |sp.properties| == 0)
    && (sp.parameterRef.Some? ==> |sp.scoredProperties| == 0)
    && ScoredListShapeOk(sp.scoredProperties)
    && PropertiesShapeOk(sp.properties)
  }

  predicate ScoredListShapeOk(sps: seq<ScoredProperty>)
    decreases sps
  {
    |sps| == 0 || (ScoredShapeOk(sps[0]) && ScoredListShapeOk(sps[1..]))
  }

  predicate OptionsShapeOk(os: seq<PrintFeatureOption>)
  {
    |os| == 0
    || (ScoredListShapeOk(os[0].scoredProperties) && PropertiesShapeOk(os[0].properties) && OptionsShapeOk(os[1..]))
  }

  predicate FeatureShapeOk(f: PrintFeature)
    decreases f
  {
    PropertiesShapeOk(f.properties) && OptionsShapeOk(f.options) && FeaturesShapeOk(f.features)
  }

  predicate FeaturesShapeOk(fs: seq<PrintFeature>)
    decreases fs
  {
    |fs| == 0 || (FeatureShapeOk(fs[0]) && FeaturesShapeOk(fs[1..]))
  }

  predicate DefsShapeOk(ds: seq<ParameterDef>)
  {
    |ds| == 0 || (PropertiesShapeOk(ds[0].properties) && DefsShapeOk(ds[1..]))
  }

  predicate DocumentShapeOk(d: PrintSchemaDocument)
  {
    match d
    case PrintCapabilities(c) =>
      PropertiesShapeOk(c.properties) && DefsShapeOk(c.parameterDefs) && FeaturesShapeOk(c.features)
    case PrintTicket(t) => PropertiesShapeOk(t.properties) && FeaturesShapeOk(t.features)
  }

  // ---------------------------------------------------------------------------
  // A tree is rebuilt unchanged exactly when it has a lossless shape
  // ---------------------------------------------------------------------------

  /** Two non-empty sequences are equal exactly when their heads and tails are. */
  lemma ConsEqual<T>(a: seq<T>, b: seq<T>)
    requires |a| > 0 && |b| > 0
    ensures a == b <==> a[0] == b[0] && a[1..] == b[1..]
  {
    if a[0] == b[0] && a[1..] == b[1..] {
      assert a == [a[0]] + a[1..] && b == [b[0]] + b[1..];
    }
  }

  lemma {:induction false} PropertyFixed(p: Property)
    ensures RereadProperty(p) == p <==> PropertyShapeOk(p)
    decreases p, 1
  {
    PropertiesFixed(p.properties);
  }

  lemma {:induction false} PropertiesFixed(ps: seq<Property>)
    ensures RereadProperties(ps) == ps <==> PropertiesShapeOk(ps)
    decreases ps, 0
  {
    if |ps| > 0 {
      PropertyFixed(ps[0]);
      PropertiesFixed(ps[1..]);
      var r := RereadProperties(ps);
      assert r[0] == RereadProperty(ps[0]) && r[1..] == RereadProperties(ps[1..]);
      ConsEqual(r, ps);
    }
  }

  lemma {:induction false} ScoredFixed(sp: ScoredProperty)
    ensures RereadScored(sp) == sp <==> ScoredShapeOk(sp)
    decreases sp, 1
  {
    ScoredListFixed(sp.scoredProperties);
    PropertiesFixed(sp.properties);
  }

  lemma {:induction false} ScoredListFixed(sps: seq<ScoredProperty>)
    ensures RereadScoredList(sps) == sps <==> ScoredListShapeOk(sps)
    decreases sps, 0
  {
    if |sps| > 0 {
      ScoredFixed(sps[0]);
      ScoredListFixed(sps[1..]);
      var r := RereadScoredList(sps);
      assert r[0] == RereadScored(sps[0]) && r[1..] == RereadScoredList(sps[1..]);
      ConsEqual(r, sps);
    }
  }

  lemma {:induction false} OptionsFixed(os: seq<PrintFeatureOption>)
    ensures RereadOptions(os) == os <==> OptionsShapeOk(os)
  {
    if |os| > 0 {
      ScoredListFixed(os[0].scoredProperties);
      PropertiesFixed(os[0].properties);
      OptionsFixed(os[1..]);
      var r := RereadOptions(os);
      assert r[0] == RereadOption(os[0]) && r[1..] == RereadOptions(os[1..]);
      ConsEqual(r, os);
    }
  }

  lemma {:induction false} FeatureFixed(f: PrintFeature)
    ensures RereadFeature(f) == f <==> FeatureShapeOk(f)
    decreases f, 1
  {
    PropertiesFixed(f.properties);
    OptionsFixed(f.options);
    FeaturesFixed(f.features);
  }

  lemma {:induction false} FeaturesFixed(fs: seq<PrintFeature>)
    ensures RereadFeatures(fs) == fs <==> FeaturesShapeOk(fs)
    decreases fs, 0
  {
    if |fs| > 0 {
      FeatureFixed(fs[0]);
      FeaturesFixed(fs[1..]);
      var r := RereadFeatures(fs);
      assert r[0] == RereadFeature(fs[0]) && r[1..] == RereadFeatures(fs[1..]);
      ConsEqual(r, fs);
    }
  }

  lemma {:induction false} DefsFixed(ds: seq<ParameterDef>)
    ensures RereadDefs(ds) == ds <==> DefsShapeOk(ds)
  {
    if |ds| > 0 {
      PropertiesFixed(ds[0].properties);
      DefsFixed(ds[1..]);
      var r := RereadDefs(ds);
      assert r[0] == ParameterDef(ds[0].name, RereadProperties(ds[0].properties)) && r[1..] == RereadDefs(ds[1..]);
      ConsEqual(r, ds);
    }
  }

  lemma DocumentFixed(d: PrintSchemaDocument)
    ensures RereadDocument(d) == d <==> DocumentShapeOk(d)
  {
    match d
    case PrintCapabilities(c) =>
      PropertiesFixed(c.properties);
      DefsFixed(c.parameterDefs);
      FeaturesFixed(c.features);
    case PrintTicket(t) =>
      PropertiesFixed(t.properties);
      FeaturesFixed(t.features);
  }

  // ---------------------------------------------------------------------------
  // What is rebuilt always has a lossless shape, so rebuilding twice changes
  // nothing more
  // ---------------------------------------------------------------------------

  lemma {:induction false} PropertyRereadShaped(p: Property)
    ensures PropertyShapeOk(RereadProperty(p))
    decreases p, 1
  {
    PropertiesRereadShaped(p.properties);
  }

  lemma {:induction false} PropertiesRereadShaped(ps: seq<Property>)
    ensures PropertiesShapeOk(RereadProperties(ps))
    decreases ps, 0
  {
    if |ps| > 0 {
      PropertyRereadShaped(ps[0]);
      PropertiesRereadShaped(ps[1..]);
      var r := RereadProperties(ps);
      assert r[0] == RereadProperty(ps[0]) && r[1..] == RereadProperties(ps[1..]);
    }
  }

  lemma {:induction false} ScoredRereadShaped(sp: ScoredProperty)
    ensures ScoredShapeOk(RereadScored(sp))
    decreases sp, 1
  {
    ScoredListRereadShaped(sp.scoredProperties);
    PropertiesRereadShaped(sp.properties);
  }

  lemma {:induction false} ScoredListRereadShaped(sps: seq<ScoredProperty>)
    ensures ScoredListShapeOk(RereadScoredList(sps))
    decreases sps, 0
  {
    if |sps| > 0 {
      ScoredRereadShaped(sps[0]);
      ScoredListRereadShaped(sps[1..]);
      var r := RereadScoredList(sps);
      assert r[0] == RereadScored(sps[0]) && r[1..] == RereadScoredList(sps[1..]);
    }
  }

  lemma {:induction false} OptionsRereadShaped(os: seq<PrintFeatureOption>)
    ensures OptionsShapeOk(RereadOptions(os))
  {
    if |os| > 0 {
      ScoredListRereadShaped(os[0].scoredProperties);
      PropertiesRereadShaped(os[0].properties);
      OptionsRereadShaped(os[1..]);
      var r := RereadOptions(os);
      assert r[0] == RereadOption(os[0]) && r[1..] == RereadOptions(os[1..]);
    }
  }

  lemma {:induction false} FeatureRereadShaped(f: PrintFeature)
    ensures FeatureShapeOk(RereadFeature(f))
    decreases f, 1
  {
    PropertiesRereadShaped(f.properties);
    OptionsRereadShaped(f.options);
    FeaturesRereadShaped(f.features);
  }

  lemma {:induction false} FeaturesRereadShaped(fs: seq<PrintFeature>)
    ensures FeaturesShapeOk(RereadFeatures(fs))
    decreases fs, 0
  {
    if |fs| > 0 {
      FeatureRereadShaped(fs[0]);
      FeaturesRereadShaped(fs[1..]);
      var r := RereadFeatures(fs);
      assert r[0] == RereadFeature(fs[0]) && r[1..] == RereadFeatures(fs[1..]);
    }
  }

  lemma {:induction false} DefsRereadShaped(ds: seq<ParameterDef>)
    ensures DefsShapeOk(RereadDefs(ds))
  {
    if |ds| > 0 {
      PropertiesRereadShaped(ds[0].properties);
      DefsRereadShaped(ds[1..]);
      var r := RereadDefs(ds);
      assert r[0].properties == RereadProperties(ds[0].properties) && r[1..] == RereadDefs(ds[1..]);
    }
  }

  lemma RereadIdempotent(d: PrintSchemaDocument)
    ensures DocumentShapeOk(RereadDocument(d))
    ensures RereadDocument(RereadDocument(d)) == RereadDocument(d)
  {
    DocumentFixed(RereadDocument(d));
    match d
    case PrintCapabilities(c) =>
      PropertiesRereadShaped(c.properties);
      DefsRereadShaped(c.parameterDefs);
      FeaturesRereadShaped(c.features);
    case PrintTicket(t) =>
      PropertiesRereadShaped(t.properties);
      FeaturesRereadShaped(t.features);
  }
}
