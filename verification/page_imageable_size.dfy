/**
 * The tree walk of `PageImageableSize::try_fetch`
 * (src/ticket/page_imageable_size.rs): reading the imageable area of a page
 * out of a parsed capabilities document. Producing the document (the ticket
 * conversion, the device call and the parse) is left out; the walk starts from
 * the parsed `PrintCapabilitiesDocument`.
 */
module PageImageableSize {
  import opened Base
  import opened XmlName
  import opened Integers
  import opened PrintSchema
  import opened MediaSize

  /** The size of the page, and the origin and extent of its imageable area, in microns. */
  datatype PageImageableSize = PageImageableSize(size: MediaSizeTuple, origin: MediaSizeTuple, extent: MediaSizeTuple)

  /** The walk's result: a value, or `PageImageableSizeError::FieldError` naming the field that could not be read. */
  datatype FieldResult<T> = Found(value: T) | FieldError(field: string)

  /** The value a property holds when it is a non-negative integer: `integer()` then `u32::try_from`. */
  function U32Value(p: Property): (r: Option<u32>)
    ensures r.Some? <==> p.value.Some? && p.value.value.Integer? && p.value.value.number >= 0
    ensures r.Some? ==> r.value == p.value.value.number
  {
    match p.value
    case Some(Integer(n)) => if n >= 0 then Some(n) else None
    case _ => None
  }

  /**
   * `get_u32_property`: the first property with this keyword name, read as a
   * `u32`; anything else is a field error naming it.
   */
  function GetU32Property(props: seq<Property>, name: string): (r: FieldResult<u32>)
    ensures r.FieldError? ==> r.field == name
    ensures r.Found? <==> exists i :: IsFirstProperty(props, name, Some(NS_PSK), i) && U32Value(props[i]).Some?
    ensures r.Found? ==> exists i :: IsFirstProperty(props, name, Some(NS_PSK), i) && U32Value(props[i]) == Some(r.value)
  {
    match GetProperty(props, name, Some(NS_PSK))
    case None => FieldError(name)
    case Some(p) =>
      match U32Value(p)
      case Some(v) => Found(v)
      case None => FieldError(name)
  }

  /** A negative integer is not a `u32`: it is reported like a missing field. */
  lemma NegativeIsFieldError(props: seq<Property>, name: string, i: nat)
    requires IsFirstProperty(props, name, Some(NS_PSK), i)
    requires props[i].value.Some? && props[i].value.value.Integer? && props[i].value.value.number < 0
    ensures GetU32Property(props, name) == FieldError(name)
  {
    assert forall k :: IsFirstProperty(props, name, Some(NS_PSK), k) ==> k == i;
  }

  /** The keyword property of this name among `props`, or a field error naming it. */
  function Child(props: seq<Property>, name: string): (r: FieldResult<Property>)
    ensures r.FieldError? ==> r.field == name
    ensures r.Found? <==> exists i :: 0 <= i < |props| && NameIs(props[i].name, name, Some(NS_PSK))
    ensures r.Found? ==> exists i :: IsFirstProperty(props, name, Some(NS_PSK), i) && r.value == props[i]
  {
    match GetProperty(props, name, Some(NS_PSK))
    case None => FieldError(name)
    case Some(p) => Found(p)
  }

  /** Two `get_u32_property` calls in a row, width first, giving a size in microns. */
  function GetTuple(props: seq<Property>, width: string, height: string): (r: FieldResult<MediaSizeTuple>)
    ensures r.FieldError? ==> r.field == width || r.field == height
  {
    match GetU32Property(props, width)
    case FieldError(f) => FieldError(f)
    case Found(w) =>
      match GetU32Property(props, height)
      case FieldError(f) => FieldError(f)
      case Found(h) => Found(Micron(w, h))
  }

  /**
   * `try_fetch` from the parsed document on (lines 61-81): the root property
   * `psk:PageImageableSize`, its two size fields, its `psk:ImageableArea`, and
   * that area's origin and extent, each step stopping at the first failure.
   */
  function ImageableSizeOf(caps: PrintCapabilitiesDocument): (r: FieldResult<PageImageableSize>)
  {
    match Child(caps.properties, "PageImageableSize")
    case FieldError(f) => FieldError(f)
    case Found(imageableSize) =>
      match GetTuple(imageableSize.properties, "ImageableSizeWidth", "ImageableSizeHeight")
      case FieldError(f) => FieldError(f)
      case Found(size) =>
        match Child(imageableSize.properties, "ImageableArea")
        case FieldError(f) => FieldError(f)
        case Found(area) =>
          match GetTuple(area.properties, "OriginWidth", "OriginHeight")
          case FieldError(f) => FieldError(f)
          case Found(origin) =>
            match GetTuple(area.properties, "ExtentWidth", "ExtentHeight")
            case FieldError(f) => FieldError(f)
            case Found(extent) => Found(PageImageableSize(size, origin, extent))
  }

  // ---------------------------------------------------------------------------
  // A reference reading: the fields, in the order they are checked
  // ---------------------------------------------------------------------------

  /** The first name in `names` whose field cannot be read from `props`. */
  function FirstUnreadable(props: seq<Property>, names: seq<string>): (r: Option<string>)
    ensures r.Some? ==> r.value in names && GetU32Property(props, r.value).FieldError?
    ensures r.None? <==> forall i :: 0 <= i < |names| ==> GetU32Property(props, names[i]).Found?
  {
    if |names| == 0 then None
    else if GetU32Property(props, names[0]).FieldError? then Some(names[0])
    else FirstUnreadable(props, names[1..])
  }

  /** A checklist of two parts: the first part's failure, else the second's. */
  lemma {:induction false} FirstUnreadableAppend(props: seq<Property>, a: seq<string>, b: seq<string>)
    ensures FirstUnreadable(props, a + b) ==
      if FirstUnreadable(props, a).Some? then FirstUnreadable(props, a) else FirstUnreadable(props, b)
  {
    if |a| == 0 {
      assert a + b == b;
    } else {
      assert (a + b)[1..] == a[1..] + b;
      FirstUnreadableAppend(props, a[1..], b);
    }
  }

  /** Reading a pair fails exactly when the two-item checklist does, on the same field. */
  lemma GetTupleChecklist(props: seq<Property>, width: string, height: string)
    ensures GetTuple(props, width, height).FieldError? <==> FirstUnreadable(props, [width, height]).Some?
    ensures GetTuple(props, width, height).FieldError? ==>
      GetTuple(props, width, height).field == FirstUnreadable(props, [width, height]).value
    ensures GetTuple(props, width, height).Found? ==>
      GetTuple(props, width, height).value ==
        Micron(GetU32Property(props, width).value, GetU32Property(props, height).value)
  {
    assert [width, height][1..] == [height];
    assert [height][1..] == [];
  }

  const SIZE_FIELDS: seq<string> := ["ImageableSizeWidth", "ImageableSizeHeight"]
  const AREA_FIELDS: seq<string> := ["OriginWidth", "OriginHeight", "ExtentWidth", "ExtentHeight"]

  /**
   * The field error `try_fetch` reports, read as a checklist: the root property,
   * then the size fields, then the area, then the area's fields, in that order.
   */
  function ExpectedError(caps: PrintCapabilitiesDocument): Option<string>
  {
    match GetProperty(caps.properties, "PageImageableSize", Some(NS_PSK))
    case None => Some("PageImageableSize")
    case Some(imageableSize) =>
      if FirstUnreadable(imageableSize.properties, SIZE_FIELDS).Some? then
        FirstUnreadable(imageableSize.properties, SIZE_FIELDS)
      else match GetProperty(imageableSize.properties, "ImageableArea", Some(NS_PSK))
        case None => Some("ImageableArea")
        case Some(area) => FirstUnreadable(area.properties, AREA_FIELDS)
  }

  /** The walk fails exactly when the checklist finds a field, and it names that field: the first failure wins. */
  lemma ErrorIsFirstFailure(caps: PrintCapabilitiesDocument)
    ensures ImageableSizeOf(caps).FieldError? <==> ExpectedError(caps).Some?
    ensures ImageableSizeOf(caps).FieldError? ==> ImageableSizeOf(caps).field == ExpectedError(caps).value
  {
    match GetProperty(caps.properties, "PageImageableSize", Some(NS_PSK))
    case None =>
    case Some(imageableSize) =>
      var ps := imageableSize.properties;
      GetTupleChecklist(ps, "ImageableSizeWidth", "ImageableSizeHeight");
      match GetProperty(ps, "ImageableArea", Some(NS_PSK))
      case None =>
      case Some(area) =>
        var qs := area.properties;
        GetTupleChecklist(qs, "OriginWidth", "OriginHeight");
        GetTupleChecklist(qs, "ExtentWidth", "ExtentHeight");
        assert AREA_FIELDS == ["OriginWidth", "OriginHeight"] + ["ExtentWidth", "ExtentHeight"];
        FirstUnreadableAppend(qs, ["OriginWidth", "OriginHeight"], ["ExtentWidth", "ExtentHeight"]);
  }

  /**
   * On success every field is the first keyword property of its name, holding a
   * non-negative integer, and lands in its place: size, origin, extent.
   */
  lemma FoundReadsEachField(caps: PrintCapabilitiesDocument)
    requires ImageableSizeOf(caps).Found?
    ensures exists imageableSize, area ::
      && GetProperty(caps.properties, "PageImageableSize", Some(NS_PSK)) == Some(imageableSize)
      && GetProperty(imageableSize.properties, "ImageableArea", Some(NS_PSK)) == Some(area)
      && ImageableSizeOf(caps).value == PageImageableSize(
           Micron(GetU32Property(imageableSize.properties, "ImageableSizeWidth").value,
                  GetU32Property(imageableSize.properties, "ImageableSizeHeight").value),
           Micron(GetU32Property(area.properties, "OriginWidth").value,
                  GetU32Property(area.properties, "OriginHeight").value),
           Micron(GetU32Property(area.properties, "ExtentWidth").value,
                  GetU32Property(area.properties, "ExtentHeight").value))
  {
    var imageableSize := GetProperty(caps.properties, "PageImageableSize", Some(NS_PSK)).value;
    var area := GetProperty(imageableSize.properties, "ImageableArea", Some(NS_PSK)).value;
    GetTupleChecklist(imageableSize.properties, "ImageableSizeWidth", "ImageableSizeHeight");
    GetTupleChecklist(area.properties, "OriginWidth", "OriginHeight");
    GetTupleChecklist(area.properties, "ExtentWidth", "ExtentHeight");
  }
}
