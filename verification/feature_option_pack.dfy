/**
 * Typed feature-option packs (src/ticket/feature_option_pack.rs and the
 * `define_feature_option_pack!` instances in page_media_size.rs,
 * page_resolution.rs, page_orientation.rs, page_output_color.rs and
 * document_duplex.rs).
 *
 * A pack is one option of one feature together with the parameter
 * initialisations it needs. In the source every instance is its own type and
 * the feature name is a per-type constant; here the instance is the `kind`
 * field of a single datatype.
 */
module FeatureOptionPack {
  import opened Base
  import opened XmlName
  import opened Integers
  import opened PrintSchema
  import PredefinedNames

  /** The types `define_feature_option_pack!` generates. */
  datatype PackKind = PageMediaSize | PageResolution | PageOrientation | PageOutputColor | DocumentDuplex

  /** The keyword local name of each instance's feature. */
  function FeatureLocalName(k: PackKind): string
  {
    match k
    case PageMediaSize => "PageMediaSize"
    case PageResolution => "PageResolution"
    case PageOrientation => "PageOrientation"
    case PageOutputColor => "PageOutputColor"
    case DocumentDuplex => "DocumentDuplex"
  }

  /** `FeatureOptionPack::feature_name`: a keyword under the `psk` prefix. */
  function FeatureName(k: PackKind): (r: OwnedName)
    ensures r.namespace == Some(NS_PSK) && r.prefix == Some("psk")
    ensures r.localName == FeatureLocalName(k)
  {
    Qualified(FeatureLocalName(k), NS_PSK, Some("psk"))
  }

  /** Distinct instances stand for distinct features. */
  lemma FeatureNamesDistinct(k: PackKind, j: PackKind)
    requires k != j
    ensures FeatureName(k) != FeatureName(j)
  {
    assert FeatureName(k).localName != FeatureName(j).localName;
  }

  /** The struct each instance declares: the option and its parameters. */
  datatype Pack = Pack(kind: PackKind, option: PrintFeatureOption, parameters: seq<ParameterInit>)

  /** `FeatureOptionPack::new` */
  function New(k: PackKind, option: PrintFeatureOption, parameters: seq<ParameterInit>): (r: Pack)
    ensures r.kind == k && r.option == option && r.parameters == parameters
  {
    Pack(k, option, parameters)
  }

  /** `into_option_with_parameters`: the pack is rebuilt from what it gives back. */
  function IntoOptionWithParameters(p: Pack): (r: (PrintFeatureOption, seq<ParameterInit>))
    ensures New(p.kind, r.0, r.1) == p
  {
    (p.option, p.parameters)
  }

  /** `new` followed by `into_option_with_parameters` gives back what went in. */
  lemma NewThenInto(k: PackKind, option: PrintFeatureOption, parameters: seq<ParameterInit>)
    ensures IntoOptionWithParameters(New(k, option, parameters)) == (option, parameters)
  {
  }

  /** A write through `option_mut`: the parameters are kept. */
  function WithOption(p: Pack, option: PrintFeatureOption): (r: Pack)
    ensures r.option == option && r.parameters == p.parameters && r.kind == p.kind
  {
    p.(option := option)
  }

  /** A write through `parameters_mut`: the option is kept. */
  function WithParameters(p: Pack, parameters: seq<ParameterInit>): (r: Pack)
    ensures r.parameters == parameters && r.option == p.option && r.kind == p.kind
  {
    p.(parameters := parameters)
  }

  // ---------------------------------------------------------------------------
  // `display_name`
  // ---------------------------------------------------------------------------

  /**
   * `FeatureOptionPack::display_name`: the text of the option's first
   * `psk:DisplayName` property, when that property holds a string.
   */
  function DisplayName(p: Pack): (r: Option<string>)
    ensures r.Some? <==> exists i :: IsFirstProperty(p.option.properties, "DisplayName", Some(NS_PSK), i)
                                     && p.option.properties[i].value.Some?
                                     && p.option.properties[i].value.value.String?
    ensures r.Some? ==> exists i :: IsFirstProperty(p.option.properties, "DisplayName", Some(NS_PSK), i)
                                    && p.option.properties[i].value == Some(String(r.value))
  {
    match GetProperty(p.option.properties, "DisplayName", Some(NS_PSK))
    case None => None
    case Some(prop) =>
      match prop.value
      case None => None
      case Some(v) => StringOf(v)
  }

  /** Only the first `psk:DisplayName` counts: if it holds no string, later ones are never consulted. */
  lemma DisplayNameFirstOnly(p: Pack, i: nat, j: nat)
    requires i < j < |p.option.properties|
    requires IsFirstProperty(p.option.properties, "DisplayName", Some(NS_PSK), i)
    requires p.option.properties[i].value.None? || !p.option.properties[i].value.value.String?
    requires p.option.properties[j].name == p.option.properties[i].name
    ensures DisplayName(p).None?
  {
    assert forall k :: IsFirstProperty(p.option.properties, "DisplayName", Some(NS_PSK), k) ==> k == i;
  }

  // ---------------------------------------------------------------------------
  // `list`
  // ---------------------------------------------------------------------------

  /**
   * `FeatureOptionPack::list` over the options the capabilities give for the
   * pack's feature, each paired with the defaults of the parameters it depends
   * on. `defaultParametersFor` stands for `default_parameters_for`.
   */
  function List(k: PackKind, options: seq<PrintFeatureOption>,
                defaultParametersFor: seq<OwnedName> -> seq<ParameterInit>): (r: seq<Pack>)
    ensures |r| == |options|
    ensures forall i :: 0 <= i < |r| ==>
      r[i].kind == k && r[i].option == options[i]
      && r[i].parameters == defaultParametersFor(OptionParametersDependent(options[i]))
  {
    if |options| == 0 then []
    else [New(k, options[0], defaultParametersFor(OptionParametersDependent(options[0])))]
         + List(k, options[1..], defaultParametersFor)
  }

  /**
   * `list` as the source calls it: `optionsForFeature` stands for
   * `PrintCapabilities::options_for_feature`, asked about the pack's own feature.
   */
  function ListFor(k: PackKind, optionsForFeature: OwnedName -> seq<PrintFeatureOption>,
                   defaultParametersFor: seq<OwnedName> -> seq<ParameterInit>): (r: seq<Pack>)
    ensures |r| == |optionsForFeature(FeatureName(k))|
    ensures forall i :: 0 <= i < |r| ==> r[i].option == optionsForFeature(FeatureName(k))[i]
  {
    List(k, optionsForFeature(FeatureName(k)), defaultParametersFor)
  }

  /** Listing two runs of options back to back lists each in turn. */
  lemma {:induction false} ListAppend(k: PackKind, a: seq<PrintFeatureOption>, b: seq<PrintFeatureOption>,
                                      defaultParametersFor: seq<OwnedName> -> seq<ParameterInit>)
    ensures List(k, a + b, defaultParametersFor) == List(k, a, defaultParametersFor) + List(k, b, defaultParametersFor)
  {
    if |a| == 0 {
      assert a + b == b;
    } else {
      assert (a + b)[1..] == a[1..] + b;
      ListAppend(k, a[1..], b, defaultParametersFor);
    }
  }

  // ---------------------------------------------------------------------------
  // `From<T: FeatureOptionPack> for PrintTicket`
  // ---------------------------------------------------------------------------

  /**
   * The ticket document a pack converts to: no properties, the pack's
   * parameters as initialisations, and one feature holding only the option.
   */
  function TicketDocument(p: Pack): (r: PrintTicketDocument)
    ensures r.properties == [] && r.parameterInits == p.parameters
    ensures |r.features| == 1 && r.features[0].name == FeatureName(p.kind)
    ensures r.features[0].options == [p.option]
    ensures r.features[0].properties == [] && r.features[0].features == []
  {
    var (option, parameters) := IntoOptionWithParameters(p);
    PrintTicketDocument([], parameters, [PrintFeature(FeatureName(p.kind), [], [option], [])])
  }

  /**
   * Reading a pack back out of a ticket of that shape: the feature says which
   * instance it is, the single option and the initialisations are the rest.
   */
  function PackOfTicket(t: PrintTicketDocument): (r: Option<Pack>)
  {
    if t.properties == [] && |t.features| == 1 && t.features[0].properties == []
       && t.features[0].features == [] && |t.features[0].options| == 1
    then
      var f := t.features[0];
      if f.name == FeatureName(PageMediaSize) then Some(Pack(PageMediaSize, f.options[0], t.parameterInits))
      else if f.name == FeatureName(PageResolution) then Some(Pack(PageResolution, f.options[0], t.parameterInits))
      else if f.name == FeatureName(PageOrientation) then Some(Pack(PageOrientation, f.options[0], t.parameterInits))
      else if f.name == FeatureName(PageOutputColor) then Some(Pack(PageOutputColor, f.options[0], t.parameterInits))
      else if f.name == FeatureName(DocumentDuplex) then Some(Pack(DocumentDuplex, f.options[0], t.parameterInits))
      else None
    else None
  }

  /** The conversion loses nothing: the pack is read back from its ticket. */
  lemma TicketKeepsPack(p: Pack)
    ensures PackOfTicket(TicketDocument(p)) == Some(p)
  {
    var f := TicketDocument(p).features[0];
    match p.kind
    case PageMediaSize =>
    case PageResolution => FeatureNamesDistinct(PageResolution, PageMediaSize);
    case PageOrientation =>
      FeatureNamesDistinct(PageOrientation, PageMediaSize);
      FeatureNamesDistinct(PageOrientation, PageResolution);
    case PageOutputColor =>
      FeatureNamesDistinct(PageOutputColor, PageMediaSize);
      FeatureNamesDistinct(PageOutputColor, PageResolution);
      FeatureNamesDistinct(PageOutputColor, PageOrientation);
    case DocumentDuplex =>
      FeatureNamesDistinct(DocumentDuplex, PageMediaSize);
      FeatureNamesDistinct(DocumentDuplex, PageResolution);
      FeatureNamesDistinct(DocumentDuplex, PageOrientation);
      FeatureNamesDistinct(DocumentDuplex, PageOutputColor);
  }

  /** And every ticket a pack can be read from is exactly that pack's ticket. */
  lemma TicketOfPackOnly(t: PrintTicketDocument, p: Pack)
    requires PackOfTicket(t) == Some(p)
    ensures TicketDocument(p) == t
  {
    var f := t.features[0];
    assert f == PrintFeature(f.name, [], [f.options[0]], []);
    assert t == PrintTicketDocument([], t.parameterInits, [f]);
  }

  // ---------------------------------------------------------------------------
  // `FeatureOptionPackWithPredefined::as_predefined_name`
  // ---------------------------------------------------------------------------

  /**
   * `as_predefined_name` with the instance's `PredefinedName::from_name`: an
   * anonymous option has none; a named one is looked up by its name.
   */
  function AsPredefinedName<T>(p: Pack, fromName: OwnedName -> Option<T>): (r: Option<T>)
    ensures p.option.name.None? ==> r.None?
    ensures p.option.name.Some? ==> r == fromName(p.option.name.value)
  {
    match p.option.name
    case None => None
    case Some(n) => fromName(n)
  }

  /** `PageOrientation` uses `PredefinedPageOrientation`. */
  function AsPredefinedOrientation(p: Pack): (r: Option<PredefinedNames.PageOrientation>)
    requires p.kind == PageOrientation
    ensures r.Some? <==> p.option.name.Some? && PredefinedNames.InKeywords(p.option.name.value)
                          && exists o: PredefinedNames.PageOrientation :: o.Spelling() == p.option.name.value.localName
    ensures r.Some? ==> r.value.Spelling() == p.option.name.value.localName
  {
    AsPredefinedName(p, PredefinedNames.PageOrientationFromName)
  }

  /** `PageOutputColor` uses `PredefinedPageOutputColor`. */
  function AsPredefinedOutputColor(p: Pack): (r: Option<PredefinedNames.PageOutputColor>)
    requires p.kind == PageOutputColor
    ensures r.Some? <==> p.option.name.Some? && PredefinedNames.InKeywords(p.option.name.value)
                          && exists c: PredefinedNames.PageOutputColor :: c.Spelling() == p.option.name.value.localName
    ensures r.Some? ==> r.value.Spelling() == p.option.name.value.localName
  {
    AsPredefinedName(p, PredefinedNames.PageOutputColorFromName)
  }

  /** `DocumentDuplex` uses `PredefinedDuplexType`. */
  function AsPredefinedDuplex(p: Pack): (r: Option<PredefinedNames.DuplexType>)
    requires p.kind == DocumentDuplex
    ensures r.Some? <==> p.option.name.Some? && PredefinedNames.InKeywords(p.option.name.value)
                          && exists d: PredefinedNames.DuplexType :: d.Spelling() == p.option.name.value.localName
    ensures r.Some? ==> r.value.Spelling() == p.option.name.value.localName
  {
    AsPredefinedName(p, PredefinedNames.DuplexTypeFromName)
  }

  /** An option named by a keyword of the instance's predefined type is recognised as that keyword. */
  lemma PredefinedOptionRecognised(p: Pack, o: PredefinedNames.PageOrientation, prefix: Option<string>)
    requires p.kind == PageOrientation
    requires p.option.name == Some(Qualified(o.Spelling(), NS_PSK, prefix))
    ensures AsPredefinedOrientation(p) == Some(o)
  {
    PredefinedNames.FromNameRecognisesEveryVariant(PredefinedNames.OneSided, PredefinedNames.Color, o, prefix);
  }

  // ---------------------------------------------------------------------------
  // Integer-valued scored properties, as the size and resolution accessors read them
  // ---------------------------------------------------------------------------

  /**
   * `get_scored_property(local, Some(NS_PSK))`, then `value_with(parameters)`,
   * then `integer()`, then `unwrap_or_default()`: a missing scored property, an
   * unresolved reference or a value that is not an integer all read as 0.
   */
  function KeywordInteger(o: PrintFeatureOption, parameters: seq<ParameterInit>, local: string): (r: i32)
    ensures (forall i :: 0 <= i < |o.scoredProperties| ==> !ScoredNameIs(o.scoredProperties[i], local, Some(NS_PSK)))
            ==> r == 0
    ensures forall i :: IsFirstScored(o.scoredProperties, local, Some(NS_PSK), i) ==>
      r == match ValueWith(o.scoredProperties[i], parameters) case Some(Integer(n)) => n case _ => 0
  {
    match GetScoredProperty(o.scoredProperties, local, Some(NS_PSK))
    case None => 0
    case Some(sp) =>
      match ValueWith(sp, parameters)
      case Some(Integer(n)) => n
      case _ => 0
  }
}
