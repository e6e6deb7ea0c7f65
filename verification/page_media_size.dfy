/**
 * `PageMediaSize::size` (src/ticket/page_media_size.rs): the media size an
 * option of the `psk:PageMediaSize` feature describes, in microns.
 */
module PageMediaSize {
  import opened Base
  import opened XmlName
  import opened Integers
  import opened PrintSchema
  import opened MediaSize
  import opened FeatureOptionPack

  /**
   * `PageMediaSize::size`: the `psk:MediaSizeWidth` and `psk:MediaSizeHeight`
   * integers, 0 when they cannot be read, each converted with `as u32`.
   */
  function Size(p: Pack): (r: MediaSizeTuple)
    requires p.kind == PageMediaSize
    ensures KeywordInteger(p.option, p.parameters, "MediaSizeWidth") >= 0 ==>
      r.widthInMicron == KeywordInteger(p.option, p.parameters, "MediaSizeWidth")
    ensures KeywordInteger(p.option, p.parameters, "MediaSizeHeight") >= 0 ==>
      r.heightInMicron == KeywordInteger(p.option, p.parameters, "MediaSizeHeight")
    ensures KeywordInteger(p.option, p.parameters, "MediaSizeWidth") < 0 ==>
      r.widthInMicron == KeywordInteger(p.option, p.parameters, "MediaSizeWidth") + U32_LIMIT
    ensures KeywordInteger(p.option, p.parameters, "MediaSizeHeight") < 0 ==>
      r.heightInMicron == KeywordInteger(p.option, p.parameters, "MediaSizeHeight") + U32_LIMIT
  {
    var width := KeywordInteger(p.option, p.parameters, "MediaSizeWidth");
    var height := KeywordInteger(p.option, p.parameters, "MediaSizeHeight");
    Micron(AsU32(width), AsU32(height))
  }

  /** A scored property named by a keyword, holding an integer inline. */
  function InlineInteger(local: string, n: i32): ScoredProperty
  {
    ScoredProperty(Some(Qualified(local, NS_PSK, Some("psk"))), None, Some(Integer(n)), [], [])
  }

  /** A scored property named by a keyword whose value is the parameter `ref`. */
  function ParameterBacked(local: string, ref: OwnedName): ScoredProperty
  {
    ScoredProperty(Some(Qualified(local, NS_PSK, Some("psk"))), Some(ref), None, [], [])
  }

  /** An option that gives its width and height inline has exactly that size. */
  lemma InlineSize(name: Option<OwnedName>, w: i32, h: i32, parameters: seq<ParameterInit>)
    requires w >= 0 && h >= 0
    ensures Size(Pack(PageMediaSize, PrintFeatureOption(name, [InlineInteger("MediaSizeWidth", w),
                                                             InlineInteger("MediaSizeHeight", h)], []),
                      parameters))
            == Micron(w, h)
  {
    var sps := [InlineInteger("MediaSizeWidth", w), InlineInteger("MediaSizeHeight", h)];
    assert IsFirstScored(sps, "MediaSizeWidth", Some(NS_PSK), 0);
    assert IsFirstScored(sps, "MediaSizeHeight", Some(NS_PSK), 1);
  }

  /**
   * The ISO A4 option of a capabilities document, 210000 by 297000 microns,
   * reads as that size.
   */
  lemma IsoA4Size(parameters: seq<ParameterInit>)
    ensures Size(Pack(PageMediaSize,
                      PrintFeatureOption(Some(Qualified("ISOA4", NS_PSK, Some("psk"))),
                                         [InlineInteger("MediaSizeWidth", 210000),
                                          InlineInteger("MediaSizeHeight", 297000)], []),
                      parameters))
            == Mm(210, 297)
  {
    InlineSize(Some(Qualified("ISOA4", NS_PSK, Some("psk"))), 210000, 297000, parameters);
  }

  /** A width given through a parameter reference is read from the pack's parameters. */
  lemma ParameterBackedWidth(ref: OwnedName, w: i32, h: i32, rest: seq<ParameterInit>)
    requires w >= 0 && h >= 0
    ensures Size(Pack(PageMediaSize, PrintFeatureOption(None, [ParameterBacked("MediaSizeWidth", ref),
                                                             InlineInteger("MediaSizeHeight", h)], []),
                      [ParameterInit(ref, Integer(w))] + rest))
            == Micron(w, h)
  {
    var sps := [ParameterBacked("MediaSizeWidth", ref), InlineInteger("MediaSizeHeight", h)];
    var params := [ParameterInit(ref, Integer(w))] + rest;
    assert IsFirstScored(sps, "MediaSizeWidth", Some(NS_PSK), 0);
    assert IsFirstScored(sps, "MediaSizeHeight", Some(NS_PSK), 1);
    assert IsFirstParameter(params, ref, 0);
  }

  /** A reference to a parameter the pack does not carry reads as width 0: roll media. */
  lemma UnresolvedWidthIsZero(ref: OwnedName, h: i32)
    ensures Size(Pack(PageMediaSize, PrintFeatureOption(None, [ParameterBacked("MediaSizeWidth", ref),
                                                             InlineInteger("MediaSizeHeight", h)], []),
                      [])).widthInMicron == 0
    ensures Size(Pack(PageMediaSize, PrintFeatureOption(None, [ParameterBacked("MediaSizeWidth", ref),
                                                             InlineInteger("MediaSizeHeight", h)], []),
                      [])).IsRoll()
  {
    var sps := [ParameterBacked("MediaSizeWidth", ref), InlineInteger("MediaSizeHeight", h)];
    assert IsFirstScored(sps, "MediaSizeWidth", Some(NS_PSK), 0);
  }

  /** A negative width is not rejected: `as u32` turns -1 into 4294967295 microns. */
  lemma NegativeWidthWraps(h: i32)
    requires h >= 0
    ensures Size(Pack(PageMediaSize, PrintFeatureOption(None, [InlineInteger("MediaSizeWidth", -1),
                                                             InlineInteger("MediaSizeHeight", h)], []),
                      [])).widthInMicron == 4294967295
  {
    var sps := [InlineInteger("MediaSizeWidth", -1), InlineInteger("MediaSizeHeight", h)];
    assert IsFirstScored(sps, "MediaSizeWidth", Some(NS_PSK), 0);
  }
}
