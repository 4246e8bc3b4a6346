/** Pixel alignment for concurrent writeback (patches/display-source-build/formats.cpp): how
    many pixels make the buffer a whole number of 256-byte units. */
module CwbAlignment {

  /** The formats the bytes-per-pixel switch lists, and one for all it does not. */
  datatype BufferFormat =
    | RGBA16161616F | RGBA16161616FUbwc
    | ARGB8888 | RGBA8888 | BGRA8888 | XRGB8888 | RGBX8888 | BGRX8888 | RGBA8888Ubwc | RGBX8888Ubwc
    | RGBA1010102 | ARGB2101010 | RGBX1010102 | XRGB2101010 | BGRA1010102 | ABGR2101010
    | BGRX1010102 | XBGR2101010 | RGBA1010102Ubwc | RGBX1010102Ubwc
    | RGBA8888UbwcLossy2To1 | RGBA8888UbwcLossy8To5
    | RGB888 | BGR888 | YCbCr420P010 | YCbCr420P010Ubwc | YCbCr420P010Venus | YCbCr420P010Tile
    | RGB565 | BGR565 | RGBA5551 | RGBA4444 | BGR565Ubwc
    | YCbCr422H2V1Packed | CbYCrY422H2V1Packed | YCrCb422H2V1SemiPlanar | YCbCr422H2V1SemiPlanar
    | YCbCr420TP10Ubwc | YCbCr420TP10Tile | YCbCr422H1V2SemiPlanar | YCrCb422H1V2SemiPlanar
    | YCbCr420Planar | YCrCb420Planar | YCrCb420PlanarStride16 | YCbCr420SemiPlanar
    | YCrCb420SemiPlanar | YCbCr420SemiPlanarVenus | YCrCb420SemiPlanarVenus
    | YCbCr420SPVenusUbwc | YCbCr420SPVenusTile
    | A8
    | Unlisted

  /** Bytes per pixel; every value is exact in single precision. */
  function Bpp(format: BufferFormat): real {
    match format
    case RGBA16161616F | RGBA16161616FUbwc => 8.0
    case ARGB8888 | RGBA8888 | BGRA8888 | XRGB8888 | RGBX8888 | BGRX8888
       | RGBA8888Ubwc | RGBX8888Ubwc
       | RGBA1010102 | ARGB2101010 | RGBX1010102 | XRGB2101010 | BGRA1010102 | ABGR2101010
       | BGRX1010102 | XBGR2101010 | RGBA1010102Ubwc | RGBX1010102Ubwc
       | RGBA8888UbwcLossy2To1 | RGBA8888UbwcLossy8To5 => 4.0
    case RGB888 | BGR888 | YCbCr420P010 | YCbCr420P010Ubwc | YCbCr420P010Venus
       | YCbCr420P010Tile => 3.0
    case RGB565 | BGR565 | RGBA5551 | RGBA4444 | BGR565Ubwc
       | YCbCr422H2V1Packed | CbYCrY422H2V1Packed | YCrCb422H2V1SemiPlanar | YCbCr422H2V1SemiPlanar
       | YCbCr420TP10Ubwc | YCbCr420TP10Tile | YCbCr422H1V2SemiPlanar
       | YCrCb422H1V2SemiPlanar => 2.0
    case YCbCr420Planar | YCrCb420Planar | YCrCb420PlanarStride16 | YCbCr420SemiPlanar
       | YCrCb420SemiPlanar | YCbCr420SemiPlanarVenus | YCrCb420SemiPlanarVenus
       | YCbCr420SPVenusUbwc | YCbCr420SPVenusTile => 1.5
    case A8 => 1.0
    case Unlisted => 0.0
  }

  function AlignmentFactor(format: BufferFormat): nat {
    var bpp := Bpp(format);
    if bpp == 0.0 then 0
    else if bpp == 1.5 then 512
    else if bpp == 3.0 then 256
    else
      var bppInt := bpp.Floor;
      if bppInt % 2 == 0 then 256 / bppInt else 0
  }

  ghost predicate FillsExactly(format: BufferFormat, pixels: nat, units: int) {
    pixels as real * Bpp(format) == 256.0 * units as real
  }

  /** This many pixels of the format fill a whole number of 256-byte units. */
  ghost predicate FillsUnits(format: BufferFormat, pixels: nat) {
    exists units :: FillsExactly(format, pixels, units)
  }

  /** Bytes per pixel in half bytes. */
  ghost function HalfBytes(format: BufferFormat): (h: nat)
    ensures h as real == 2.0 * Bpp(format)
    ensures h in {0, 2, 3, 4, 6, 8, 16}
  {
    if Bpp(format) == 1.5 then 3 else 2 * Bpp(format).Floor
  }

  lemma UnitsInHalfBytes(format: BufferFormat, p: nat, units: int)
    ensures FillsExactly(format, p, units) <==> p * HalfBytes(format) == 512 * units
  {
    hide Bpp, HalfBytes;
    HalfOf(Bpp(format), HalfBytes(format), p, units);
  }

  lemma HalfOf(bytes: real, h: nat, p: nat, units: int)
    requires h in {0, 2, 3, 4, 6, 8, 16} && h as real == 2.0 * bytes
    ensures p as real * bytes == 256.0 * units as real <==> p * h == 512 * units
  {
    if h == 0 { assert bytes == 0.0; }
    else if h == 2 { assert bytes == 1.0; }
    else if h == 3 { assert bytes == 1.5; }
    else if h == 4 { assert bytes == 2.0; }
    else if h == 6 { assert bytes == 3.0; }
    else if h == 8 { assert bytes == 4.0; }
    else { assert bytes == 8.0; }
  }

  /** 512 / gcd(h, 512). */
  function PixelsPerUnits(h: nat): (f: nat)
    requires h in {2, 3, 4, 6, 8, 16}
    ensures f > 0
  {
    if h == 3 then 512 else if h == 6 then 256 else 512 / h
  }

  /** For the odd multiples this needs 3 to be invertible modulo powers of two: 3 * 171 == 513. */
  lemma WholeUnitsAreMultiples(p: nat, h: nat, units: int) returns (q: int)
    requires h in {2, 3, 4, 6, 8, 16} && p * h == 512 * units
    ensures p == PixelsPerUnits(h) * q
  {
    if h == 2 { q := units; }
    else if h == 3 { q := 171 * units - p; }
    else if h == 4 { q := units; }
    else if h == 6 { q := 171 * units - 2 * p; }
    else if h == 8 { q := units; }
    else { q := units; }
  }

  lemma MultiplesAreWholeUnits(p: nat, h: nat, q: int) returns (units: int)
    requires h in {2, 3, 4, 6, 8, 16} && p == PixelsPerUnits(h) * q
    ensures p * h == 512 * units
  {
    if h == 2 { units := q; }
    else if h == 3 { units := 3 * q; }
    else if h == 4 { units := q; }
    else if h == 6 { units := 3 * q; }
    else if h == 8 { units := q; }
    else { units := q; }
  }

  lemma FillsUnitsIffMultiple(format: BufferFormat, p: nat)
    requires Bpp(format) != 0.0
    ensures FillsUnits(format, p) <==> p % PixelsPerUnits(HalfBytes(format)) == 0
  {
    var h := HalfBytes(format);
    assert h in {2, 3, 4, 6, 8, 16};
    hide *;
    SomeUnits(format, p);
    if units :| FillsExactly(format, p, units) {
      UnitsInHalfBytes(format, p, units);
      WholeUnitsNoRemainder(p, h, units);
    }
    if p % PixelsPerUnits(h) == 0 {
      var units := MultiplesAreWholeUnits(p, h, p / PixelsPerUnits(h));
      UnitsInHalfBytes(format, p, units);
    }
  }

  lemma SomeUnits(format: BufferFormat, p: nat)
    ensures FillsUnits(format, p) <==> exists units :: FillsExactly(format, p, units)
  {
    hide FillsExactly;
  }

  lemma {:induction false} WholeUnitsNoRemainder(p: nat, h: nat, units: int)
    requires h in {2, 3, 4, 6, 8, 16} && p * h == 512 * units
    ensures p % PixelsPerUnits(h) == 0
  {
    hide *;
    var q := WholeUnitsAreMultiples(p, h, units);
    MultipleHasNoRemainder(q, PixelsPerUnits(h));
  }

  lemma MultipleHasNoRemainder(q: int, f: int)
    requires f > 0
    ensures (f * q) % f == 0
  {
    var r := (f * q) % f;
    var d := (f * q) / f;
    assert f * (q - d) == r;
    assert q - d >= 1 ==> f * (q - d) >= f;
    assert q - d <= -1 ==> f * (q - d) <= -f;
  }

  /** The alignment is exact: a pixel count fills whole units if and only if it is a multiple
      of the factor. */
  lemma AlignmentIsExact(format: BufferFormat, p: nat)
    requires AlignmentFactor(format) != 0
    ensures FillsUnits(format, p) <==> p % AlignmentFactor(format) == 0
  {
    FillsUnitsIffMultiple(format, p);
    assert AlignmentFactor(format) == PixelsPerUnits(HalfBytes(format));
  }

  /** A factor of 0 switches alignment off. It is returned for the formats the switch does not
      list and also for the one listed format with an odd bytes-per-pixel, 8-bit alpha, although
      its pixels fill whole units only in multiples of 256. */
  lemma FactorZero(format: BufferFormat, p: nat)
    ensures AlignmentFactor(format) == 0 <==> format.A8? || format.Unlisted?
    ensures FillsUnits(A8, p) <==> p % 256 == 0
  {
    hide *;
    ZeroFactors(format);
    AlphaPixels(p);
  }

  lemma ZeroFactors(format: BufferFormat)
    ensures AlignmentFactor(format) == 0 <==> format.A8? || format.Unlisted?
  {
    BytesOfOdd(format);
    hide Bpp;
    var b := Bpp(format);
    if b == 8.0 { assert b.Floor == 8; }
    else if b == 4.0 { assert b.Floor == 4; }
    else if b == 2.0 { assert b.Floor == 2; }
    else if b == 1.0 { assert b.Floor == 1; }
  }

  lemma BytesOfOdd(format: BufferFormat)
    ensures Bpp(format) in {8.0, 4.0, 3.0, 2.0, 1.5, 1.0, 0.0}
    ensures format.A8? <==> Bpp(format) == 1.0
    ensures format.Unlisted? <==> Bpp(format) == 0.0
  {
  }

  lemma AlphaPixels(p: nat)
    ensures FillsUnits(A8, p) <==> p % 256 == 0
  {
    assert Bpp(A8) == 1.0 && HalfBytes(A8) == 2 && PixelsPerUnits(2) == 256;
    hide *;
    FillsUnitsIffMultiple(A8, p);
  }

  // ---- The table against the layout of the formats ----

  /** Bits stored per pixel, from the names: the channels of the packed formats, and for the planar
      ones half or one chroma pair per pixel in samples of 8 bits, of 16, or of three in 32. */
  function StoredBits(format: BufferFormat): real {
    match format
    case RGBA16161616F | RGBA16161616FUbwc => (16 + 16 + 16 + 16) as real
    case ARGB8888 | RGBA8888 | BGRA8888 | XRGB8888 | RGBX8888 | BGRX8888 | RGBA8888Ubwc | RGBX8888Ubwc
       | RGBA8888UbwcLossy2To1 | RGBA8888UbwcLossy8To5 => (8 + 8 + 8 + 8) as real
    case RGBA1010102 | ARGB2101010 | RGBX1010102 | XRGB2101010 | BGRA1010102 | ABGR2101010 | BGRX1010102
       | XBGR2101010 | RGBA1010102Ubwc | RGBX1010102Ubwc => (10 + 10 + 10 + 2) as real
    case RGB888 | BGR888 => (8 + 8 + 8) as real
    case RGB565 | BGR565 | BGR565Ubwc => (5 + 6 + 5) as real
    case RGBA5551 => (5 + 5 + 5 + 1) as real
    case RGBA4444 => (4 + 4 + 4 + 4) as real
    case A8 => 8.0
    case YCbCr420P010 | YCbCr420P010Ubwc | YCbCr420P010Venus | YCbCr420P010Tile => (1.0 + 0.5) * 16.0
    case YCbCr420TP10Ubwc | YCbCr420TP10Tile => (1.0 + 0.5) * (32.0 / 3.0)
    case YCbCr422H2V1Packed | CbYCrY422H2V1Packed | YCrCb422H2V1SemiPlanar | YCbCr422H2V1SemiPlanar
       | YCbCr422H1V2SemiPlanar | YCrCb422H1V2SemiPlanar => (1.0 + 1.0) * 8.0
    case Unlisted => 0.0
    case _ => (1.0 + 0.5) * 8.0
  }

  lemma BytesAreStoredBits(format: BufferFormat)
    ensures 8.0 * Bpp(format) == StoredBits(format)
  {
  }
}
