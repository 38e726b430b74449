/**
 * The depth heat map of both viewers.  A raw 11-bit depth sample indexes a
 * 2048-entry gamma table; the table entry is split into a coarse band
 * selector (its high byte) and a fine blend amount (its low byte), and a
 * switch on the band picks a colour that fades linearly from one anchor
 * colour to the next.  glview uses six bands ending in black, the OpenCV
 * head hunter seven bands with an extra magenta anchor.
 */
module DepthHeatMap {
  import opened Types

  /** One gamma table entry per 11-bit depth sample (2^11). */
  const GammaSize := 2048

  datatype Rgb = Rgb(red: int, green: int, blue: int)

  /** Every channel fits the byte it is stored into. */
  predicate IsByteColour(c: Rgb) {
    0 <= c.red < 0x100 && 0 <= c.green < 0x100 && 0 <= c.blue < 0x100
  }

  const White := Rgb(255, 255, 255)
  const Red := Rgb(255, 0, 0)
  const Yellow := Rgb(255, 255, 0)
  const Green := Rgb(0, 255, 0)
  const Cyan := Rgb(0, 255, 255)
  const Blue := Rgb(0, 0, 255)
  const Magenta := Rgb(255, 0, 255)
  const Black := Rgb(0, 0, 0)
  /** The colour of every table entry beyond the last band. */
  const Grey := Rgb(128, 128, 128)

  /** The band switch of glview's depth callback, on the table entry `pval`. */
  function SixBandColour(pval: U16): (c: Rgb)
    ensures IsByteColour(c)
  {
    var lowByte := pval % 0x100;  // pval & 0xff
    match pval / 0x100            // pval >> 8
    case 0 => Rgb(255, 255 - lowByte, 255 - lowByte)
    case 1 => Rgb(255, lowByte, 0)
    case 2 => Rgb(255 - lowByte, 255, 0)
    case 3 => Rgb(0, 255, lowByte)
    case 4 => Rgb(0, 255 - lowByte, 255)
    case 5 => Rgb(0, 0, 255 - lowByte)
    case _ => Grey
  }

  /**
   * The band switch of the head hunter's heat map, on the table entry `heat`.
   * Both halves are narrowed to `uint8_t` as the source does; the colour is
   * given here as red, green, blue and stored in blue, green, red order by
   * `BgrBytes`.
   */
  function SevenBandColour(heat: U16): (c: Rgb)
    ensures IsByteColour(c)
  {
    var fine := heat % 0x100;              // static_cast<uint8_t>(heat & 0xFF)
    var coarse := (heat / 0x100) % 0x100;  // static_cast<uint8_t>(heat >> 8)
    match coarse
    case 0 => Rgb(255, 255 - fine, 255 - fine)
    case 1 => Rgb(255, fine, 0)
    case 2 => Rgb(255 - fine, 255, 0)
    case 3 => Rgb(0, 255, fine)
    case 4 => Rgb(0, 255 - fine, 255)
    case 5 => Rgb(fine, 0, 255)
    case 6 => Rgb(255 - fine, 0, 255 - fine)
    case _ => Grey
  }

  /** The three bytes glview stores for one pixel, red first. */
  function RgbBytes(c: Rgb): (bytes: seq<Byte>)
    requires IsByteColour(c)
    ensures |bytes| == 3
  {
    [c.red, c.green, c.blue]
  }

  /** The three bytes of an OpenCV `Vec3b` pixel, blue first. */
  function BgrBytes(c: Rgb): (bytes: seq<Byte>)
    requires IsByteColour(c)
    ensures |bytes| == 3
  {
    [c.blue, c.green, c.red]
  }

  // ---------------------------------------------------------------------
  // Reference definition: each band fades linearly between two anchors.
  // ---------------------------------------------------------------------

  /** One channel, `t`/255 of the way from `a` to `b`. */
  function Mix(a: int, b: int, t: int): int {
    (a * (255 - t) + b * t) / 255
  }

  /** A colour `t`/255 of the way from `from` to `to`. */
  function Fade(from: Rgb, to: Rgb, t: int): Rgb {
    Rgb(Mix(from.red, to.red, t), Mix(from.green, to.green, t), Mix(from.blue, to.blue, t))
  }

  /** The colours the six bands fade between: white, red, yellow, green, cyan, blue, black. */
  function SixBandAnchor(k: nat): Rgb
    requires k <= 6
  {
    [White, Red, Yellow, Green, Cyan, Blue, Black][k]
  }

  /** The colours the seven bands fade between: as above with magenta before black. */
  function SevenBandAnchor(k: nat): Rgb
    requires k <= 7
  {
    [White, Red, Yellow, Green, Cyan, Blue, Magenta, Black][k]
  }

  /** Blending between full and zero intensity moves by exactly the blend amount. */
  lemma MixOfFullAndZero(t: int)
    requires 0 <= t < 0x100
    ensures Mix(0, 0, t) == 0 && Mix(255, 255, t) == 255
    ensures Mix(255, 0, t) == 255 - t && Mix(0, 255, t) == t
  {
  }

  /**
   * glview's switch is the six-band fade: band k of the table entry goes
   * from anchor k (low byte 0) towards anchor k+1 (low byte 255); every
   * entry past the sixth band is grey.
   */
  lemma {:induction false} SixBandsFade(pval: U16)
    ensures pval / 0x100 < 6 ==>
      SixBandColour(pval) == Fade(SixBandAnchor(pval / 0x100), SixBandAnchor(pval / 0x100 + 1), pval % 0x100)
    ensures pval / 0x100 >= 6 ==> SixBandColour(pval) == Grey
  {
    MixOfFullAndZero(pval % 0x100);
  }

  /** The head hunter's switch is the seven-band fade, grey past the seventh band. */
  lemma {:induction false} SevenBandsFade(heat: U16)
    ensures heat / 0x100 < 7 ==>
      SevenBandColour(heat) == Fade(SevenBandAnchor(heat / 0x100), SevenBandAnchor(heat / 0x100 + 1), heat % 0x100)
    ensures heat / 0x100 >= 7 ==> SevenBandColour(heat) == Grey
  {
    assert heat / 0x100 < 0x100;
    assert (heat / 0x100) % 0x100 == heat / 0x100;
    MixOfFullAndZero(heat % 0x100);
  }

  /** Adjacent six-band bands meet: the end of band k is the start of band k+1. */
  lemma SixBandsMeet(k: nat)
    requires k < 5
    ensures SixBandColour(k * 0x100 + 0xFF) == SixBandColour((k + 1) * 0x100)
  {
    var last, first := k * 0x100 + 0xFF, (k + 1) * 0x100;
    assert last / 0x100 == k && last % 0x100 == 0xFF;
    assert first / 0x100 == k + 1 && first % 0x100 == 0;
    SixBandsFade(last);
    SixBandsFade(first);
  }

  /** Adjacent seven-band bands meet: the end of band k is the start of band k+1. */
  lemma SevenBandsMeet(k: nat)
    requires k < 6
    ensures SevenBandColour(k * 0x100 + 0xFF) == SevenBandColour((k + 1) * 0x100)
  {
    var last, first := k * 0x100 + 0xFF, (k + 1) * 0x100;
    assert last / 0x100 == k && last % 0x100 == 0xFF;
    assert first / 0x100 == k + 1 && first % 0x100 == 0;
    SevenBandsFade(last);
    SevenBandsFade(first);
  }

  /**
   * The two variants give the same colour except on the upper bands, where
   * the six-band map fades blue to black and then turns grey while the
   * seven-band map fades blue to magenta and magenta to black.
   */
  lemma VariantsDifferExactlyInsideUpperBands(p: U16)
    ensures SixBandColour(p) == SevenBandColour(p) <==> !(5 * 0x100 < p < 7 * 0x100)
  {
    assert (p / 0x100) % 0x100 == p / 0x100;
  }
}
