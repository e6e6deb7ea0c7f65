/**
 * `MediaSizeTuple` (src/ticket/media_size_tuple.rs): a width and a height in
 * microns, each an unsigned 32-bit integer, with its `Debug` rendering in
 * centimetres.
 */
module MediaSize {
  import opened Integers

  /** Microns per millimetre and per centimetre. */
  const MICRONS_PER_MM: nat := 1000
  const MICRONS_PER_CM: nat := 10000

  /** The largest millimetre count whose micron value still fits in a `u32`. */
  const MAX_MM: nat := 4294967

  datatype MediaSizeTuple = MediaSizeTuple(widthInMicron: u32, heightInMicron: u32)
  {
    /** Roll media leave one dimension open: the width or the height is zero. */
    predicate IsRoll()
    {
      widthInMicron == 0 || heightInMicron == 0
    }
  }

  /** `MediaSizeTuple::micron` */
  function Micron(width: u32, height: u32): (r: MediaSizeTuple)
    ensures r.widthInMicron == width && r.heightInMicron == height
  {
    MediaSizeTuple(width, height)
  }

  /**
   * `MediaSizeTuple::mm`. The multiplication is a plain `u32` product, so the
   * source only works for sizes up to `MAX_MM` millimetres.
   */
  function Mm(width: u32, height: u32): (r: MediaSizeTuple)
    requires width <= MAX_MM && height <= MAX_MM
    ensures r == Micron(width * MICRONS_PER_MM, height * MICRONS_PER_MM)
    ensures r.widthInMicron / MICRONS_PER_MM == width && r.widthInMicron % MICRONS_PER_MM == 0
    ensures r.heightInMicron / MICRONS_PER_MM == height && r.heightInMicron % MICRONS_PER_MM == 0
  {
    MediaSizeTuple(width * 1000, height * 1000)
  }

  /** `MAX_MM` is exactly the bound: one more millimetre does not fit in a `u32`. */
  lemma MaxMmIsTight()
    ensures MAX_MM * MICRONS_PER_MM < U32_LIMIT
    ensures (MAX_MM + 1) * MICRONS_PER_MM >= U32_LIMIT
  {
  }

  /** `set_width_in_micron`: the height is kept. */
  function SetWidthInMicron(m: MediaSizeTuple, width: u32): (r: MediaSizeTuple)
    ensures r.widthInMicron == width
    ensures r.heightInMicron == m.heightInMicron
  {
    m.(widthInMicron := width)
  }

  /** `set_height_in_micron`: the width is kept. */
  function SetHeightInMicron(m: MediaSizeTuple, height: u32): (r: MediaSizeTuple)
    ensures r.heightInMicron == height
    ensures r.widthInMicron == m.widthInMicron
  {
    m.(heightInMicron := height)
  }

  /** Setting both components in either order gives the size built from them. */
  lemma SettersCommute(m: MediaSizeTuple, width: u32, height: u32)
    ensures SetHeightInMicron(SetWidthInMicron(m, width), height) == Micron(width, height)
    ensures SetWidthInMicron(SetHeightInMicron(m, height), width) == Micron(width, height)
  {
  }

  /** A size is roll media exactly when one of its sides is zero. */
  lemma IsRollIffZeroSide(width: u32, height: u32)
    ensures Micron(width, height).IsRoll() <==> width == 0 || height == 0
  {
  }

  // ---------------------------------------------------------------------------
  // `Debug`: `{}.{:0>4} cm` per component
  // ---------------------------------------------------------------------------

  /** `{:0>4}`: left-padded with zeros to at least four characters. */
  function PadLeft4(s: string): (r: string)
    ensures |r| == if |s| >= 4 then |s| else 4
    ensures r[|r| - |s|..] == s
    ensures forall i :: 0 <= i < |r| - |s| ==> r[i] == '0'
    decreases 4 - |s|
  {
    if |s| >= 4 then s else PadLeft4("0" + s)
  }

  /** A value below `10^k` has at most `k` decimal digits; here `k` is four. */
  lemma {:induction false} SmallNumeralIsShort(n: nat)
    requires n < 10000
    ensures |NatToString(n)| <= 4
  {
    if n >= 10 {
      ShortNumeral(n / 10);
    }
  }

  lemma {:induction false} ShortNumeral(n: nat)
    requires n < 1000
    ensures |NatToString(n)| <= 3
  {
    if n >= 10 {
      ShorterNumeral(n / 10);
    }
  }

  lemma {:induction false} ShorterNumeral(n: nat)
    requires n < 100
    ensures |NatToString(n)| <= 2
  {
    if n >= 10 {
      assert n / 10 < 10;
    }
  }

  /** Zeros in front of a numeral leave its value alone. */
  lemma {:induction false} PaddedDigits(s: string)
    requires AllDigits(s)
    ensures AllDigits(PadLeft4(s)) && DigitsValue(PadLeft4(s)) == DigitsValue(s)
    decreases 4 - |s|
  {
    if |s| < 4 {
      LeadingZeroAddsNothing(s);
      PaddedDigits("0" + s);
    }
  }

  /** One component in centimetres: whole centimetres, a point, and four digits of the remainder. */
  function CmText(v: u32): string
  {
    NatToString(v / MICRONS_PER_CM) + "." + PadLeft4(NatToString(v % MICRONS_PER_CM))
  }

  /** `impl Debug for MediaSizeTuple` */
  function DebugText(m: MediaSizeTuple): string
  {
    "MediaSizeTuple(" + CmText(m.widthInMicron) + " cm \U{00D7} " + CmText(m.heightInMicron) + " cm)"
  }

  /**
   * The centimetre text loses nothing: it is a numeral, a point and exactly four
   * digits, and whole part times 10000 plus the fraction is the micron value.
   */
  lemma CmTextRecovers(v: u32)
    ensures exists whole: string, fraction: string ::
      && CmText(v) == whole + "." + fraction
      && AllDigits(whole) && AllDigits(fraction) && |whole| > 0 && |fraction| == 4
      && DigitsValue(whole) * MICRONS_PER_CM + DigitsValue(fraction) == v
  {
    var whole := NatToString(v / MICRONS_PER_CM);
    var fraction := PadLeft4(NatToString(v % MICRONS_PER_CM));
    SmallNumeralIsShort(v % MICRONS_PER_CM);
    PaddedDigits(NatToString(v % MICRONS_PER_CM));
    assert CmText(v) == whole + "." + fraction;
  }

  /** Two texts of the form `whole.fraction` with equally long fractions split the same way. */
  lemma SplitAtPoint(a: string, fa: string, b: string, fb: string)
    requires a + "." + fa == b + "." + fb
    requires |fa| == |fb|
    ensures a == b && fa == fb
  {
    var s := a + "." + fa;
    assert |a| == |b|;
    assert a == s[..|a|] == b;
    assert fa == s[|a| + 1..] == fb;
  }

  /** Different micron values never print the same centimetre text. */
  lemma CmTextInjective(v: u32, w: u32)
    requires CmText(v) == CmText(w)
    ensures v == w
  {
    SmallNumeralIsShort(v % MICRONS_PER_CM);
    SmallNumeralIsShort(w % MICRONS_PER_CM);
    PaddedDigits(NatToString(v % MICRONS_PER_CM));
    PaddedDigits(NatToString(w % MICRONS_PER_CM));
    SplitAtPoint(NatToString(v / MICRONS_PER_CM), PadLeft4(NatToString(v % MICRONS_PER_CM)),
                 NatToString(w / MICRONS_PER_CM), PadLeft4(NatToString(w % MICRONS_PER_CM)));
  }

  lemma NumeralExamples()
    ensures NatToString(21) == "21" && NatToString(29) == "29"
    ensures NatToString(0) == "0" && NatToString(1) == "1"
    ensures NatToString(7000) == "7000" && NatToString(7001) == "7001"
  {
    assert NatToString(70) == "70" && NatToString(700) == "700";
  }

  lemma PadExamples()
    ensures PadLeft4("0") == "0000" && PadLeft4("1") == "0001"
    ensures PadLeft4("7000") == "7000" && PadLeft4("7001") == "7001"
  {
    assert PadLeft4("00") == "0000" && PadLeft4("01") == "0001";
  }

  lemma CmTextExamples()
    ensures CmText(210000) == "21.0000" && CmText(297000) == "29.7000"
    ensures CmText(210001) == "21.0001" && CmText(297001) == "29.7001"
  {
    NumeralExamples();
    PadExamples();
    assert 210000 / MICRONS_PER_CM == 21 && 210000 % MICRONS_PER_CM == 0;
    assert 297000 / MICRONS_PER_CM == 29 && 297000 % MICRONS_PER_CM == 7000;
    assert 210001 / MICRONS_PER_CM == 21 && 210001 % MICRONS_PER_CM == 1;
    assert 297001 / MICRONS_PER_CM == 29 && 297001 % MICRONS_PER_CM == 7001;
  }

  /** A4 in millimetres prints as 21.0000 cm by 29.7000 cm. */
  lemma A4DebugText()
    ensures DebugText(Mm(210, 297)) == "MediaSizeTuple(21.0000 cm \U{00D7} 29.7000 cm)"
  {
    CmTextExamples();
    hide CmText;
    assert Mm(210, 297) == Micron(210000, 297000);
  }

  /** One micron more in each direction shows in the last digit. */
  lemma A4PlusOneDebugText()
    ensures DebugText(Micron(210001, 297001)) == "MediaSizeTuple(21.0001 cm \U{00D7} 29.7001 cm)"
  {
    CmTextExamples();
    hide CmText;
  }
}
