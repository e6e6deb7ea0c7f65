/**
 * The predefined option names of three Print Schema Keywords features
 * (src/ticket/predefined_duplex_type.rs, predefined_page_output_color.rs,
 * predefined_page_orientation.rs).
 *
 * Each enum derives strum's `EnumString`, whose `from_str` accepts exactly the
 * variant's identifier, compared case-sensitively. `from_name` applies it to
 * the local name of a name in the keywords namespace; any other namespace,
 * including none, gives `None`, and the prefix is never looked at.
 */
module PredefinedNames {
  import opened Base
  import opened XmlName

  /** `PredefinedDuplexType` */
  datatype DuplexType = OneSided | TwoSidedShortEdge | TwoSidedLongEdge
  {
    /** The variant's identifier, the only text `from_str` accepts for it. */
    function Spelling(): string
    {
      match this
      case OneSided => "OneSided"
      case TwoSidedShortEdge => "TwoSidedShortEdge"
      case TwoSidedLongEdge => "TwoSidedLongEdge"
    }
  }

  /** `PredefinedPageOutputColor` */
  datatype PageOutputColor = Color | Grayscale | Monochrome
  {
    function Spelling(): string
    {
      match this
      case Color => "Color"
      case Grayscale => "Grayscale"
      case Monochrome => "Monochrome"
    }
  }

  /** `PredefinedPageOrientation` */
  datatype PageOrientation = Portrait | Landscape | ReversePortrait | ReverseLandscape
  {
    function Spelling(): string
    {
      match this
      case Portrait => "Portrait"
      case Landscape => "Landscape"
      case ReversePortrait => "ReversePortrait"
      case ReverseLandscape => "ReverseLandscape"
    }
  }

  /** `name.namespace_ref() == Some(NS_PSK)` */
  predicate InKeywords(n: OwnedName)
  {
    n.namespace == Some(NS_PSK)
  }

  // ---------------------------------------------------------------------------
  // `from_str`, derived by strum
  // ---------------------------------------------------------------------------

  function DuplexTypeFromStr(s: string): (r: Option<DuplexType>)
    ensures r.Some? ==> r.value.Spelling() == s
    ensures r.None? ==> forall t: DuplexType :: t.Spelling() != s
  {
    if s == "OneSided" then Some(OneSided)
    else if s == "TwoSidedShortEdge" then Some(TwoSidedShortEdge)
    else if s == "TwoSidedLongEdge" then Some(TwoSidedLongEdge)
    else None
  }

  function PageOutputColorFromStr(s: string): (r: Option<PageOutputColor>)
    ensures r.Some? ==> r.value.Spelling() == s
    ensures r.None? ==> forall t: PageOutputColor :: t.Spelling() != s
  {
    if s == "Color" then Some(Color)
    else if s == "Grayscale" then Some(Grayscale)
    else if s == "Monochrome" then Some(Monochrome)
    else None
  }

  function PageOrientationFromStr(s: string): (r: Option<PageOrientation>)
    ensures r.Some? ==> r.value.Spelling() == s
    ensures r.None? ==> forall t: PageOrientation :: t.Spelling() != s
  {
    if s == "Portrait" then Some(Portrait)
    else if s == "Landscape" then Some(Landscape)
    else if s == "ReversePortrait" then Some(ReversePortrait)
    else if s == "ReverseLandscape" then Some(ReverseLandscape)
    else None
  }

  // ---------------------------------------------------------------------------
  // `from_name`
  // ---------------------------------------------------------------------------

  /** `PredefinedDuplexType::from_name` */
  function DuplexTypeFromName(n: OwnedName): (r: Option<DuplexType>)
    ensures !InKeywords(n) ==> r.None?
    ensures r.Some? ==> r.value.Spelling() == n.localName
    ensures InKeywords(n) && (exists t: DuplexType :: t.Spelling() == n.localName) ==> r.Some?
  {
    if InKeywords(n) then DuplexTypeFromStr(n.localName) else None
  }

  /** `PredefinedPageOutputColor::from_name` */
  function PageOutputColorFromName(n: OwnedName): (r: Option<PageOutputColor>)
    ensures !InKeywords(n) ==> r.None?
    ensures r.Some? ==> r.value.Spelling() == n.localName
    ensures InKeywords(n) && (exists t: PageOutputColor :: t.Spelling() == n.localName) ==> r.Some?
  {
    if InKeywords(n) then PageOutputColorFromStr(n.localName) else None
  }

  /** `PredefinedPageOrientation::from_name` (an inherent function, not the trait's). */
  function PageOrientationFromName(n: OwnedName): (r: Option<PageOrientation>)
    ensures !InKeywords(n) ==> r.None?
    ensures r.Some? ==> r.value.Spelling() == n.localName
    ensures InKeywords(n) && (exists t: PageOrientation :: t.Spelling() == n.localName) ==> r.Some?
  {
    if InKeywords(n) then PageOrientationFromStr(n.localName) else None
  }

  // ---------------------------------------------------------------------------
  // Properties
  // ---------------------------------------------------------------------------

  /** Every variant is recognised from its keyword name, whatever prefix the name carries. */
  lemma FromNameRecognisesEveryVariant(d: DuplexType, c: PageOutputColor, o: PageOrientation, prefix: Option<string>)
    ensures DuplexTypeFromName(Qualified(d.Spelling(), NS_PSK, prefix)) == Some(d)
    ensures PageOutputColorFromName(Qualified(c.Spelling(), NS_PSK, prefix)) == Some(c)
    ensures PageOrientationFromName(Qualified(o.Spelling(), NS_PSK, prefix)) == Some(o)
  {
  }

  /** Only the namespace and the local name are read: changing the prefix never changes the answer. */
  lemma FromNameIgnoresPrefix(n: OwnedName, prefix: Option<string>)
    ensures DuplexTypeFromName(n.(prefix := prefix)) == DuplexTypeFromName(n)
    ensures PageOutputColorFromName(n.(prefix := prefix)) == PageOutputColorFromName(n)
    ensures PageOrientationFromName(n.(prefix := prefix)) == PageOrientationFromName(n)
  {
  }

  /** The match is exact: the same word in another letter case is not a predefined name. */
  lemma FromNameIsCaseSensitive()
    ensures DuplexTypeFromName(Qualified("onesided", NS_PSK, Some("psk"))).None?
    ensures PageOutputColorFromName(Qualified("color", NS_PSK, Some("psk"))).None?
    ensures PageOrientationFromName(Qualified("LANDSCAPE", NS_PSK, Some("psk"))).None?
  {
  }

  /** The same keyword outside the keywords namespace is not recognised. */
  lemma FromNameNeedsKeywordsNamespace(d: DuplexType, c: PageOutputColor, o: PageOrientation)
    ensures DuplexTypeFromName(Local(d.Spelling())).None?
    ensures PageOutputColorFromName(Qualified(c.Spelling(), NS_PSF, Some("psk"))).None?
    ensures PageOrientationFromName(Local(o.Spelling())).None?
  {
  }
}
