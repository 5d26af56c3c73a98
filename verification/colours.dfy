/** 32-bit colours as Direct3D 9 packs them (the D3DCOLOR_ARGB family of
    macros in d3d9types.h: each channel masked to a byte, alpha in the top
    byte, then red, green, blue), and the alpha packing DrawRect does by
    addition. Channels are kept as 32-bit words, as the macros take them. */
module Colours {

  function AlphaOf(c: bv32): bv32 { (c >> 24) & 0xFF }
  function RedOf(c: bv32): bv32 { (c >> 16) & 0xFF }
  function GreenOf(c: bv32): bv32 { (c >> 8) & 0xFF }
  function BlueOf(c: bv32): bv32 { c & 0xFF }

  /** The low 24 bits: the colour without its alpha. */
  function RgbOf(c: bv32): bv32 { c & 0xFF_FFFF }

  /** D3DCOLOR_ARGB(a, r, g, b). */
  function Argb(a: bv32, r: bv32, g: bv32, b: bv32): (c: bv32)
    ensures AlphaOf(c) == a & 0xFF && RedOf(c) == r & 0xFF
    ensures GreenOf(c) == g & 0xFF && BlueOf(c) == b & 0xFF
  {
    ((a & 0xFF) << 24) | ((r & 0xFF) << 16) | ((g & 0xFF) << 8) | (b & 0xFF)
  }

  /** Every colour is the packing of its four channels. */
  lemma ArgbOfChannels(c: bv32)
    ensures Argb(AlphaOf(c), RedOf(c), GreenOf(c), BlueOf(c)) == c
  {
  }

  /** D3DCOLOR_XRGB(r, g, b): opaque. */
  function Xrgb(r: bv32, g: bv32, b: bv32): (c: bv32)
    ensures AlphaOf(c) == 0xFF && RedOf(c) == r & 0xFF && GreenOf(c) == g & 0xFF && BlueOf(c) == b & 0xFF
  {
    Argb(0xFF, r, g, b)
  }

  /** D3DCOLOR_RGBA(r, g, b, a): the same packing with the alpha given last. */
  function Rgba(r: bv32, g: bv32, b: bv32, a: bv32): (c: bv32)
    ensures AlphaOf(c) == a & 0xFF && RedOf(c) == r & 0xFF && GreenOf(c) == g & 0xFF && BlueOf(c) == b & 0xFF
  {
    Argb(a, r, g, b)
  }

  /** `color += alpha << 24` in Graphics::DrawRect, in 32-bit arithmetic.
      The RGB part is kept; the alpha byte is added to whatever top byte the
      caller's colour already had, modulo 256. */
  function PackAlpha(color: bv32, alpha: bv8): (r: bv32)
    ensures RgbOf(r) == RgbOf(color)
    ensures AlphaOf(r) == (AlphaOf(color) + alpha as bv32) & 0xFF
  {
    color + ((alpha as bv32) << 24)
  }

  /** For a plain RGB colour the addition is the intended packing:
      alpha·2^24 + colour ... */
  lemma PackAlphaOfRgb(color: bv32, alpha: bv8)
    requires color < 0x100_0000
    ensures PackAlpha(color, alpha) == (alpha as bv32) * 0x100_0000 + color
  {
  }

  /** ... which is the D3DCOLOR_ARGB of the alpha and the colour's channels. */
  lemma PackAlphaIsArgb(color: bv32, alpha: bv8)
    requires color < 0x100_0000
    ensures PackAlpha(color, alpha) == Argb(alpha as bv32, RedOf(color), GreenOf(color), BlueOf(color))
  {
    var p := PackAlpha(color, alpha);
    ArgbOfChannels(p);
    ColourChannelsOfRgb(p);
    ColourChannelsOfRgb(color);
    assert AlphaOf(color) == 0;
  }

  /** The red, green and blue channels depend only on the low 24 bits. */
  lemma ColourChannelsOfRgb(c: bv32)
    ensures RedOf(c) == RedOf(RgbOf(c)) && GreenOf(c) == GreenOf(RgbOf(c)) && BlueOf(c) == BlueOf(RgbOf(c))
  {
  }

  /** The addition wraps: a colour that already carries alpha 0xFF and is
      given alpha 1 ends up fully transparent. */
  lemma PackAlphaWraps()
    ensures AlphaOf(PackAlpha(0xFF00_0000, 1)) == 0
  {
  }
}
