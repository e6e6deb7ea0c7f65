/**
 * The raster resolution the DXGI printer (src/printer/dxgi.rs) and the PDF
 * printer (src/printer/win_pdf.rs) derive from the `DEVMODEW` the print ticket
 * converts to. Both printers carry the same block; the conversion itself is a
 * call into the operating system and is left out.
 */
module RasterDpi {
  import opened Base
  import opened Integers

  /** `DM_PRINTQUALITY` and `DM_YRESOLUTION`, the `dmFields` bits of the Windows SDK that mark the two fields valid. */
  const DM_PRINTQUALITY: bv32 := 0x0000_0400
  const DM_YRESOLUTION: bv32 := 0x0000_2000

  /** `DEFAULT_DPI`, the same constant in both printers. */
  const DEFAULT_DPI: i16 := 300

  /** The part of `DEVMODEW` the block reads. */
  datatype DevMode = DevMode(dmFields: bv32, dmPrintQuality: i16, dmYResolution: i16)

  /** The horizontal resolution, when `dmFields` marks `dmPrintQuality` valid. */
  function DpiX(d: DevMode): (r: Option<i16>)
    ensures r.Some? <==> d.dmFields & DM_PRINTQUALITY != 0
    ensures r.Some? ==> r.value == d.dmPrintQuality
  {
    if d.dmFields & DM_PRINTQUALITY != 0 then Some(d.dmPrintQuality) else None
  }

  /** The vertical resolution, when `dmFields` marks `dmYResolution` valid. */
  function DpiY(d: DevMode): (r: Option<i16>)
    ensures r.Some? <==> d.dmFields & DM_YRESOLUTION != 0
    ensures r.Some? ==> r.value == d.dmYResolution
  {
    if d.dmFields & DM_YRESOLUTION != 0 then Some(d.dmYResolution) else None
  }

  /** `std::cmp::max` */
  function Max(x: i16, y: i16): (r: i16)
    ensures r >= x && r >= y
    ensures r == x || r == y
  {
    if x >= y then x else y
  }

  /** The `raster_dpi` block: the larger of the valid fields, or 300 when neither is valid. */
  function RasterDpi(d: DevMode): (r: i16)
  {
    match (DpiX(d), DpiY(d))
    case (Some(x), Some(y)) => Max(x, y)
    case (Some(x), None) => x
    case (None, Some(y)) => y
    case (None, None) => DEFAULT_DPI
  }

  /** The values the block may choose from: the valid fields, or the default when there are none. */
  predicate Candidate(d: DevMode, v: i16)
  {
    || (DpiX(d) == Some(v))
    || (DpiY(d) == Some(v))
    || (DpiX(d).None? && DpiY(d).None? && v == DEFAULT_DPI)
  }

  /** The chosen resolution is a candidate, and it is at least every valid field. */
  lemma RasterDpiIsLargestCandidate(d: DevMode)
    ensures Candidate(d, RasterDpi(d))
    ensures DpiX(d).Some? ==> RasterDpi(d) >= d.dmPrintQuality
    ensures DpiY(d).Some? ==> RasterDpi(d) >= d.dmYResolution
    ensures forall v :: Candidate(d, v) ==> RasterDpi(d) >= v
  {
  }

  /** Being the largest candidate characterises the choice: no other value has both properties. */
  lemma LargestCandidateIsUnique(d: DevMode, v: i16)
    requires Candidate(d, v)
    requires forall w :: Candidate(d, w) ==> v >= w
    ensures v == RasterDpi(d)
  {
    RasterDpiIsLargestCandidate(d);
  }

  /** Only the two flag bits matter: the other bits of `dmFields` never change the result. */
  lemma OtherFlagsIgnored(d: DevMode, extra: bv32)
    requires extra & (DM_PRINTQUALITY | DM_YRESOLUTION) == 0
    ensures RasterDpi(d.(dmFields := d.dmFields | extra)) == RasterDpi(d)
  {
    var e := d.(dmFields := d.dmFields | extra);
    assert (d.dmFields | extra) & DM_PRINTQUALITY == d.dmFields & DM_PRINTQUALITY;
    assert (d.dmFields | extra) & DM_YRESOLUTION == d.dmFields & DM_YRESOLUTION;
  }

  /** The PDF printer's block is the DXGI printer's: same flags, same order of cases, same default. */
  function WinPdfRasterDpi(d: DevMode): (r: i16)
    ensures r == RasterDpi(d)
  {
    var dpiX := if d.dmFields & DM_PRINTQUALITY != 0 then Some(d.dmPrintQuality) else None;
    var dpiY := if d.dmFields & DM_YRESOLUTION != 0 then Some(d.dmYResolution) else None;
    match (dpiX, dpiY)
    case (Some(x), Some(y)) => if x >= y then x else y
    case (Some(x), None) => x
    case (None, Some(y)) => y
    case (None, None) => 300
  }
}
