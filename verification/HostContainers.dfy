/**
 * What a host image keeps of a colour stored in it, format by format, and which of the console's
 * formats it can hold without loss. The rounding of the float formats is left aside.
 */
module HostContainers {

  import opened EdramFormats
  import opened SurfaceTargets

  function Unorm(v: real, max: nat): real
    requires max > 0
  {
    FromUnorm(ToUnorm(v, max), max)
  }

  function Snorm(v: real): real {
    (Clamp(v, -1.0, 1.0) * 32767.0 + 0.5).Floor as real / 32767.0
  }

  /** What reading a texel gives after a store: channels an image lacks read as zero, and alpha as one. */
  function StoreIn(host: HostFormat, c: Color): Color {
    match host
    case R8G8B8A8Unorm => Color(Unorm(c.r, 255), Unorm(c.g, 255), Unorm(c.b, 255), Unorm(c.a, 255))
    case A2B10G10R10Unorm => Color(Unorm(c.r, 1023), Unorm(c.g, 1023), Unorm(c.b, 1023), Unorm(c.a, 3))
    case R16G16B16A16Snorm => Color(Snorm(c.r), Snorm(c.g), Snorm(c.b), Snorm(c.a))
    case R16G16B16A16Sfloat => c
    case R16G16Snorm => Color(Snorm(c.r), Snorm(c.g), 0.0, 1.0)
    case R16G16Sfloat | R32G32Sfloat => Color(c.r, c.g, 0.0, 1.0)
    case R32Sfloat => Color(c.r, 0.0, 0.0, 1.0)
    case Undefined => Color(0.0, 0.0, 0.0, 1.0)
  }

  /** A colour drawn under a format is kept as the console keeps it: as its bits read back. */
  predicate Fits(host: HostFormat, format: nat, c: Color) {
    StoreIn(host, c) == Reinterpret(c, format, format)
  }

  /** Every word's value under the format survives the image. */
  ghost predicate Holds(host: HostFormat, format: nat) {
    && ReinterpretSupported(format)
    && forall w: Word :: StoreIn(host, Unpack(w, format)) == Unpack(w, format)
  }

  predicate OwnContainer(host: HostFormat, format: nat) {
    || (host == R8G8B8A8Unorm && (format == 0 || format == 1))
    || (host == A2B10G10R10Unorm && format == 2)
  }

  lemma {:induction false} UnormInRange(v: real, max: nat)
    ensures ToUnorm(v, max) <= max
  {
    var c := Clamp(v, 0.0, 1.0);
    ScaledAtMost(c, max as real);
    assert c * max as real + 0.5 < (max + 1) as real;
  }

  lemma {:induction false} ScaledAtMost(c: real, scale: real)
    requires 0.0 <= c <= 1.0 && scale >= 0.0
    ensures 0.0 <= c * scale <= scale
  {}

  lemma {:induction false} LowByte(low: nat, rest: nat)
    requires low < 256
    ensures (low + 256 * rest) / 256 == rest && (low + 256 * rest) % 256 == low
  {}

  lemma {:induction false} SplitBytes(r: nat, g: nat, b: nat, a: nat)
    requires r < 256 && g < 256 && b < 256 && a < 256
    ensures Fields8(Join(r, g, b, a, 256)) == (r, g, b, a)
  {
    LowByte(b, a);
    LowByte(g, b + 256 * a);
    LowByte(r, g + 256 * (b + 256 * a));
    assert Join(r, g, b, a, 256) == r + 256 * (g + 256 * (b + 256 * a));
  }

  lemma {:induction false} LowTen(low: nat, rest: nat)
    requires low < 1024
    ensures (low + 1024 * rest) / 1024 == rest && (low + 1024 * rest) % 1024 == low
  {}

  lemma {:induction false} SplitTens(r: nat, g: nat, b: nat, a: nat)
    requires r < 1024 && g < 1024 && b < 1024 && a < 4
    ensures Fields10(Join(r, g, b, a, 1024)) == (r, g, b, a)
  {
    LowTen(b, a);
    LowTen(g, b + 1024 * a);
    LowTen(r, g + 1024 * (b + 1024 * a));
    assert Join(r, g, b, a, 1024) == r + 1024 * (g + 1024 * (b + 1024 * a));
  }

  /** An image made for a fixed-point format rounds whatever is drawn exactly as the console does. */
  lemma {:induction false} OwnContainerFits(host: HostFormat, format: nat, c: Color)
    requires OwnContainer(host, format)
    ensures Fits(host, format, c)
  {
    if host == R8G8B8A8Unorm {
      UnormInRange(c.r, 255);
      UnormInRange(c.g, 255);
      UnormInRange(c.b, 255);
      UnormInRange(c.a, 255);
      SplitBytes(ToUnorm(c.r, 255), ToUnorm(c.g, 255), ToUnorm(c.b, 255), ToUnorm(c.a, 255));
    } else {
      UnormInRange(c.r, 1023);
      UnormInRange(c.g, 1023);
      UnormInRange(c.b, 1023);
      UnormInRange(c.a, 3);
      SplitTens(ToUnorm(c.r, 1023), ToUnorm(c.g, 1023), ToUnorm(c.b, 1023), ToUnorm(c.a, 3));
    }
  }

  lemma {:induction false} OwnContainerHolds(host: HostFormat, format: nat)
    requires OwnContainer(host, format)
    ensures Holds(host, format)
  {
    forall w: Word
      ensures StoreIn(host, Unpack(w, format)) == Unpack(w, format)
    {
      OwnContainerFits(host, format, Unpack(w, format));
      PackInvertsUnpack(w, format);
    }
  }

  /** An image that holds a format packs to the console's word for any colour stored in it, representable or not. */
  lemma {:induction false} HoldingKeepsBits(host: HostFormat, format: nat, c: Color)
    requires Holds(host, format)
    ensures Pack(StoreIn(host, c), format) == Pack(c, format)
  {
    HoldsIff(host, format);
    if OwnContainer(host, format) {
      OwnContainerFits(host, format, c);
      PackInvertsUnpack(Pack(c, format), format);
    }
  }

  // ---------------------------------------------------------------- what an image loses

  /** A word that the image does not give back, for every image and format that do not belong together. */
  function Lost(host: HostFormat, format: nat): Word {
    match host
    case R8G8B8A8Unorm => if format == 2 then 1 else 1023
    case A2B10G10R10Unorm | R16G16B16A16Snorm => if format == 3 then 1023 else 1
    case _ => 0
  }

  lemma {:induction false} LostByBytes(format: nat)
    requires format == 2 || format == 3
    ensures StoreIn(R8G8B8A8Unorm, Unpack(Lost(R8G8B8A8Unorm, format), format)).r
         != Unpack(Lost(R8G8B8A8Unorm, format), format).r
  {
    if format == 2 {
      assert Fields10(1) == (1, 0, 0, 0);
      assert ToUnorm(FromUnorm(1, 1023), 255) == 0;
    } else {
      assert Fields10(1023) == (1023, 0, 0, 0);
      TopOfFloat();
      assert ToUnorm(31.875, 255) == 255;
    }
  }

  lemma {:induction false} TopOfFloat()
    ensures From7e3(1023) == 31.875
  {}

  lemma {:induction false} LostByTens(format: nat)
    requires format == 0 || format == 1 || format == 3
    ensures StoreIn(A2B10G10R10Unorm, Unpack(Lost(A2B10G10R10Unorm, format), format)).r
         != Unpack(Lost(A2B10G10R10Unorm, format), format).r
  {
    if format == 3 {
      assert Fields10(1023) == (1023, 0, 0, 0);
      TopOfFloat();
      assert ToUnorm(31.875, 1023) == 1023;
    } else {
      assert Fields8(1) == (1, 0, 0, 0);
      assert ToUnorm(FromUnorm(1, 255), 1023) == 4;
    }
  }

  lemma {:induction false} LostBySnorm(format: nat)
    requires ReinterpretSupported(format)
    ensures StoreIn(R16G16B16A16Snorm, Unpack(Lost(R16G16B16A16Snorm, format), format)).r
         != Unpack(Lost(R16G16B16A16Snorm, format), format).r
  {
    if format == 3 {
      assert Fields10(1023) == (1023, 0, 0, 0);
      TopOfFloat();
      assert (Clamp(31.875, -1.0, 1.0) * 32767.0 + 0.5).Floor == 32767;
    } else if format == 2 {
      assert Fields10(1) == (1, 0, 0, 0);
      assert (Clamp(FromUnorm(1, 1023), -1.0, 1.0) * 32767.0 + 0.5).Floor == 32;
    } else {
      assert Fields8(1) == (1, 0, 0, 0);
      assert (Clamp(FromUnorm(1, 255), -1.0, 1.0) * 32767.0 + 0.5).Floor == 128;
    }
  }

  lemma {:induction false} ZeroReadsBlack(format: nat)
    ensures Unpack(0, format) == Black
  {
    assert Fields8(0) == (0, 0, 0, 0) && Fields10(0) == (0, 0, 0, 0);
  }

  /** Exactly which images hold a format: the four-channel float one holds all, and each fixed-point one its own. */
  lemma {:induction false} HoldsIff(host: HostFormat, format: nat)
    requires ReinterpretSupported(format)
    ensures Holds(host, format) <==> host == R16G16B16A16Sfloat || OwnContainer(host, format)
  {
    if OwnContainer(host, format) {
      OwnContainerHolds(host, format);
    } else if host != R16G16B16A16Sfloat {
      LosesAWord(host, format);
    }
  }

  lemma {:induction false} LosesAWord(host: HostFormat, format: nat)
    requires ReinterpretSupported(format) && host != R16G16B16A16Sfloat && !OwnContainer(host, format)
    ensures StoreIn(host, Unpack(Lost(host, format), format)) != Unpack(Lost(host, format), format)
  {
    match host
    case R8G8B8A8Unorm => LostByBytes(format);
    case A2B10G10R10Unorm => LostByTens(format);
    case R16G16B16A16Snorm => LostBySnorm(format);
    case _ => ZeroReadsBlack(format);
  }

  // ---------------------------------------------------------------- the images a frame's plan makes

  /** The raw formats whose packing is one of the four 32-bit ones. */
  predicate ThirtyTwoBit(colorFormat: nat) {
    ReinterpretSupported(StorageColorFormat(colorFormat))
  }

  /**
   * An image sized for a base's formats holds every one of them, as long as all are 32-bit ones;
   * it holds a format the base is only copied under exactly when HoldsIff says so.
   */
  lemma {:induction false} PlannedImageHolds(formats: set<nat>, colorFormat: nat)
    requires colorFormat in formats && forall f :: f in formats ==> ThirtyTwoBit(f)
    ensures Holds(HostFormatFor(formats), StorageColorFormat(colorFormat))
  {
    HoldsIff(HostFormatFor(formats), StorageColorFormat(colorFormat));
    assert 14 !in formats && 15 !in formats;
  }

  /** Two storage formats among a base's own give it the four-channel float image, unless a wide one is there too. */
  lemma {:induction false} MixedImageIsFloat(formats: set<nat>, one: nat, other: nat)
    requires one in formats && other in formats && one != other && !HasWide(formats)
    ensures HostFormatFor(formats) == R16G16B16A16Sfloat
  {}
}
