/** Pixels of a decoded image and the integer intensity formulas the
    preprocessor and the ML Studio exporter apply to them. */
module Pixels {

  /** An 8-bit colour channel. */
  type Byte = x: int | 0 <= x < 256

  /** A pixel as an RGB triple; the alpha channel plays no part in any formula. */
  datatype Pixel = Pixel(r: Byte, g: Byte, b: Byte)

  const White: Pixel := Pixel(255, 255, 255)
  const Black: Pixel := Pixel(0, 0, 0)

  /** The preprocessor's colour configuration: the background colour every scan
      compares against and the foreground colour the threshold step paints ink with. */
  datatype Palette = Palette(background: Pixel, foreground: Pixel)

  /** The parameterless constructor's palette: white background, black ink. */
  const DefaultPalette: Palette := Palette(White, Black)

  /** A pixel is ink when it differs from the configured background colour,
      which is when at least one of its channels does. */
  predicate IsInk(p: Pixel, background: Pixel): (ink: bool)
    ensures ink <==> p.r != background.r || p.g != background.g || p.b != background.b
  {
    p != background
  }

  /** With the default palette the ink pixels are exactly the pixels whose
      exported feature is not 0, and pure black is ink. */
  lemma DefaultPaletteInk(p: Pixel)
    ensures DefaultPalette.background == White && DefaultPalette.foreground == Black
    ensures IsInk(p, DefaultPalette.background) <==> InvertedIntensity(p) != 0
    ensures IsInk(Black, DefaultPalette.background)
  {
  }

  /** Grey level: the unweighted channel mean, with integer division. */
  function Intensity(p: Pixel): (v: int)
    ensures 0 <= v <= 255
    ensures 3 * v <= p.r + p.g + p.b < 3 * v + 3
  {
    (p.r + p.g + p.b) / 3
  }

  /** The exported feature of one pixel: 255 minus its grey level, so that ink is
      bright and paper is dark. It is 0 only for pure white and 255 exactly for the
      near-black pixels whose channels sum to at most 2. */
  function InvertedIntensity(p: Pixel): (v: int)
    ensures 0 <= v <= 255
    ensures v == 0 <==> p == White
    ensures v == 255 <==> p.r + p.g + p.b <= 2
  {
    255 - Intensity(p)
  }

  /** The two-dimensional exporter's cell value: the inverted intensity divided by
      255 in INTEGER arithmetic before the conversion to a floating value, so the
      cell is 1.0 for a pixel whose grey level is 0 and 0.0 for every other pixel. */
  function Binarized(p: Pixel): (v: real)
    ensures v == (if Intensity(p) == 0 then 1.0 else 0.0)
  {
    (InvertedIntensity(p) / 255) as real
  }
}
