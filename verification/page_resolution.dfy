/**
 * `PageResolution::dpi` (src/ticket/page_resolution.rs): the resolution an
 * option of the `psk:PageResolution` feature describes, in dots per inch.
 */
module PageResolution {
  import opened Base
  import opened XmlName
  import opened Integers
  import opened PrintSchema
  import opened FeatureOptionPack

  /**
   * `PageResolution::dpi`: the `psk:ResolutionX` and `psk:ResolutionY`
   * integers, 0 when they cannot be read, each converted with `as u32`.
   */
  function Dpi(p: Pack): (r: (u32, u32))
    requires p.kind == PageResolution
    ensures r.0 == AsU32(KeywordInteger(p.option, p.parameters, "ResolutionX"))
    ensures r.1 == AsU32(KeywordInteger(p.option, p.parameters, "ResolutionY"))
  {
    var x := KeywordInteger(p.option, p.parameters, "ResolutionX");
    var y := KeywordInteger(p.option, p.parameters, "ResolutionY");
    (AsU32(x), AsU32(y))
  }

  /**
   * The two axes are read independently: replacing every scored property other
   * than the first `psk:ResolutionX` leaves the horizontal resolution alone.
   */
  lemma AxesIndependent(p: Pack, q: Pack, i: nat)
    requires p.kind == PageResolution && q.kind == PageResolution
    requires p.parameters == q.parameters
    requires IsFirstScored(p.option.scoredProperties, "ResolutionX", Some(NS_PSK), i)
    requires IsFirstScored(q.option.scoredProperties, "ResolutionX", Some(NS_PSK), i)
    requires p.option.scoredProperties[i] == q.option.scoredProperties[i]
    ensures Dpi(p).0 == Dpi(q).0
  {
  }

  /** An option with no `psk:ResolutionY` has vertical resolution 0, whatever else it holds. */
  lemma MissingAxisIsZero(p: Pack)
    requires p.kind == PageResolution
    requires forall i :: 0 <= i < |p.option.scoredProperties| ==>
      !ScoredNameIs(p.option.scoredProperties[i], "ResolutionY", Some(NS_PSK))
    ensures Dpi(p).1 == 0
  {
  }

  /** A value that is not an integer also reads as 0. */
  lemma NonIntegerAxisIsZero(text: string, y: i32)
    requires y >= 0
    ensures Dpi(Pack(PageResolution, PrintFeatureOption(None, [
              ScoredProperty(Some(Qualified("ResolutionX", NS_PSK, Some("psk"))), None, Some(String(text)), [], []),
              ScoredProperty(Some(Qualified("ResolutionY", NS_PSK, Some("psk"))), None, Some(Integer(y)), [], [])], []),
            [])) == (0, y)
  {
    var sps := [ScoredProperty(Some(Qualified("ResolutionX", NS_PSK, Some("psk"))), None, Some(String(text)), [], []),
                ScoredProperty(Some(Qualified("ResolutionY", NS_PSK, Some("psk"))), None, Some(Integer(y)), [], [])];
    assert IsFirstScored(sps, "ResolutionX", Some(NS_PSK), 0);
    assert IsFirstScored(sps, "ResolutionY", Some(NS_PSK), 1);
  }
}
