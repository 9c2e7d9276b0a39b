/**
 * The two tables from the guest's format codes: the image a colour surface is given, and the pixel size of
 * a resolve destination. Each is measured against the shape of the guest's format.
 */
module FormatTables {
  import opened Wrappers
  import opened SurfaceTargets
  import opened HostContainers
  import opened EdramFormats
  import ResolveRouting

  datatype Kind = UnitRange | SignedRange | Floating

  /** The widths of a format's channels in bits, and what their values are. */
  datatype Shape = Shape(widths: seq<nat>, kind: Kind)

  /** What the guest stores in a colour surface of each format that it can render. */
  function SurfaceShape(colorFormat: nat): Option<Shape> {
    match colorFormat
    case 0 | 1 => Some(Shape([8, 8, 8, 8], UnitRange))
    case 2 | 10 => Some(Shape([10, 10, 10, 2], UnitRange))
    case 3 | 12 => Some(Shape([10, 10, 10, 2], Floating))
    case 4 => Some(Shape([16, 16], SignedRange))
    case 5 => Some(Shape([16, 16, 16, 16], SignedRange))
    case 6 => Some(Shape([16, 16], Floating))
    case 7 => Some(Shape([16, 16, 16, 16], Floating))
    case 14 => Some(Shape([32], Floating))
    case 15 => Some(Shape([32, 32], Floating))
    case _ => None
  }

  function ImageShape(host: HostFormat): Option<Shape> {
    match host
    case R8G8B8A8Unorm => Some(Shape([8, 8, 8, 8], UnitRange))
    case A2B10G10R10Unorm => Some(Shape([10, 10, 10, 2], UnitRange))
    case R16G16Snorm => Some(Shape([16, 16], SignedRange))
    case R16G16B16A16Snorm => Some(Shape([16, 16, 16, 16], SignedRange))
    case R16G16Sfloat => Some(Shape([16, 16], Floating))
    case R16G16B16A16Sfloat => Some(Shape([16, 16, 16, 16], Floating))
    case R32Sfloat => Some(Shape([32], Floating))
    case R32G32Sfloat => Some(Shape([32, 32], Floating))
    case Undefined => None
  }

  /** As many channels, none narrower, and values of the same kind. */
  predicate Covers(image: Shape, guest: Shape) {
    && image.kind == guest.kind && |image.widths| == |guest.widths|
    && forall i :: 0 <= i < |guest.widths| ==> guest.widths[i] <= image.widths[i]
  }

  /**
   * The image of a format that can be rendered has its channels and its kind of values, each channel as wide as the
   * guest's, except that the 10-bit float formats, which no image has, are widened to 16; other codes have no image.
   */
  lemma {:induction false} ImageCoversFormat(colorFormat: nat)
    ensures var image, guest := ImageShape(HostColorFormat(colorFormat)), SurfaceShape(colorFormat);
            && image.Some? == guest.Some?
            && (guest.Some? ==> Covers(image.value, guest.value))
            && (guest.Some? && guest.value != Shape([10, 10, 10, 2], Floating) ==> image == guest)
  {}

  /** A format whose channels no 16-bit image can hold. */
  predicate HasFullWords(colorFormat: nat) {
    SurfaceShape(colorFormat).Some? && 32 in SurfaceShape(colorFormat).value.widths
  }

  /**
   * The image of a base: none without formats, its format's own for one, and for several the four-channel float
   * one, or the two-channel one if some format has 32-bit channels.
   */
  lemma {:induction false} ImageOfFormats(formats: set<nat>, one: nat, other: nat)
    ensures HostFormatFor({}) == Undefined
    ensures HostFormatFor({one}) == HostColorFormat(one)
    ensures one in formats && other in formats && one != other ==>
              HostFormatFor(formats) == if exists f :: f in formats && HasFullWords(f) then R32G32Sfloat else R16G16B16A16Sfloat
  {
    assert IsSingle({one});
    if one in formats && other in formats && one != other {
      WideHasFullWords(formats);
    }
  }

  lemma {:induction false} WideHasFullWords(formats: set<nat>)
    ensures HasWide(formats) <==> exists f :: f in formats && HasFullWords(f)
  {
    if HasWide(formats) {
      var f := if 14 in formats then 14 else 15;
      assert f in formats && HasFullWords(f);
    }
  }

  // ---------------------------------------------------------------- storage formats

  /** A format's storage form has its shape, and only the two forms that differ in blending precision have another name. */
  lemma {:induction false} StorageKeepsShape(colorFormat: nat)
    ensures SurfaceShape(StorageColorFormat(colorFormat)) == SurfaceShape(colorFormat)
    ensures StorageColorFormat(colorFormat) != colorFormat <==> colorFormat == 10 || colorFormat == 12
    ensures StorageColorFormat(StorageColorFormat(colorFormat)) == StorageColorFormat(colorFormat)
  {}

  /** The formats that convert are the storage forms whose pixel is one word in four channels. */
  lemma {:induction false} ConvertsIffOneWord(colorFormat: nat)
    ensures ReinterpretSupported(colorFormat) <==>
              && StorageColorFormat(colorFormat) == colorFormat && SurfaceShape(colorFormat).Some?
              && |SurfaceShape(colorFormat).value.widths| == 4 && Sum(SurfaceShape(colorFormat).value.widths) == 32
  {
    SumsOfFour(8, 8, 8, 8);
    SumsOfFour(10, 10, 10, 2);
    SumsOfFour(16, 16, 16, 16);
  }

  // ---------------------------------------------------------------- what an image stores

  function Channel(c: Color, i: nat): real
    requires i < 4
  {
    if i == 0 then c.r else if i == 1 then c.g else if i == 2 then c.b else c.a
  }

  /** A value that a channel of this kind and width can hold: any, if it is floating, and a level of its own otherwise. */
  ghost predicate Holdable(kind: Kind, width: nat, v: real) {
    match kind
    case Floating => true
    case SignedRange => exists n: int :: -32767 <= n <= 32767 && v == SignedLevel(n)
    case UnitRange =>
      width in {2, 8, 10}
      && exists n: nat :: n <= Levels(width) && v == FromUnorm(n, Levels(width))
  }

  function SignedLevel(n: int): real {
    n as real / 32767.0
  }

  function Levels(width: nat): nat
    requires width in {2, 8, 10}
  {
    if width == 8 then 255 else if width == 10 then 1023 else 3
  }

  lemma {:induction false} LevelInRange(n: int)
    requires -32767 <= n <= 32767
    ensures -1.0 <= SignedLevel(n) <= 1.0 && SignedLevel(n) * 32767.0 == n as real
  {}

  lemma {:induction false} HalfUpFloors(n: int, scaled: real)
    requires scaled == n as real
    ensures (scaled + 0.5).Floor == n
  {}

  lemma {:induction false} SnormKeepsLevel(n: int)
    requires -32767 <= n <= 32767
    ensures Snorm(SignedLevel(n)) == SignedLevel(n)
  {
    LevelInRange(n);
    HalfUpFloors(n, Clamp(SignedLevel(n), -1.0, 1.0) * 32767.0);
  }

  /** A signed level is the nearest, and values out of range take the end of the range. */
  lemma {:induction false} SnormIsNearest(v: real, n: int)
    ensures -1.0 <= v <= 1.0 && n as real - 0.5 <= v * 32767.0 < n as real + 0.5 ==> Snorm(v) == SignedLevel(n)
    ensures v <= -1.0 ==> Snorm(v) == -1.0
    ensures v >= 1.0 ==> Snorm(v) == 1.0
  {
    if -1.0 <= v <= 1.0 && n as real - 0.5 <= v * 32767.0 < n as real + 0.5 {
      assert (v * 32767.0 + 0.5).Floor == n;
    }
    HalfUpFloors(32767, 32767.0);
    HalfUpFloors(-32767, -32767.0);
  }

  lemma {:induction false} UnormKeepsLevel(width: nat, v: real)
    requires Holdable(UnitRange, width, v)
    ensures Unorm(v, Levels(width)) == v
  {
    var n: nat :| n <= Levels(width) && v == FromUnorm(n, Levels(width));
    UnormRoundTrip(n, Levels(width));
  }

  lemma {:induction false} SnormKeeps(v: real)
    requires Holdable(SignedRange, 16, v)
    ensures Snorm(v) == v
  {
    var n: int :| -32767 <= n <= 32767 && v == SignedLevel(n);
    SnormKeepsLevel(n);
  }

  /** An image keeps the channels it has, of values they can hold; those it lacks read as zero, and alpha as one. */
  lemma {:induction false} StoreKeepsChannels(host: HostFormat, c: Color)
    requires ImageShape(host).Some?
    requires var shape := ImageShape(host).value;
             forall i :: 0 <= i < |shape.widths| ==> Holdable(shape.kind, shape.widths[i], Channel(c, i))
    ensures |ImageShape(host).value.widths| <= 4
    ensures forall i :: 0 <= i < 4 ==>
              Channel(StoreIn(host, c), i) == if i < |ImageShape(host).value.widths| then Channel(c, i) else if i == 3 then 1.0 else 0.0
  {
    var shape := ImageShape(host).value;
    assert Holdable(shape.kind, shape.widths[0], Channel(c, 0));
    if shape.kind == UnitRange {
      forall i | 0 <= i < 4
        ensures Unorm(Channel(c, i), Levels(shape.widths[i])) == Channel(c, i)
      {
        UnormKeepsLevel(shape.widths[i], Channel(c, i));
      }
    } else if shape.kind == SignedRange {
      forall i | 0 <= i < |shape.widths|
        ensures Snorm(Channel(c, i)) == Channel(c, i)
      {
        SnormKeeps(Channel(c, i));
      }
    }
  }

  // ---------------------------------------------------------------- pixel sizes

  /** The widths of a destination format's channels, and the container the expanded ones are stored in. */
  function TextureWidths(format: nat): seq<nat> {
    match format
    case 2 | 8 | 9 => [8]
    case 3 => [5, 5, 5, 1]
    case 4 => [5, 6, 5]
    case 5 => [5, 5, 6]
    case 6 | 14 => [8, 8, 8, 8]
    case 7 => [10, 10, 10, 2]
    case 10 => [8, 8]
    case 15 => [4, 4, 4, 4]
    case 16 => [11, 11, 10]
    case 17 => [10, 11, 11]
    case 22 | 23 => [8, 24]
    case 24 | 27 | 30 => [16]
    case 25 | 28 | 31 => [16, 16]
    case 26 | 29 | 32 => [16, 16, 16, 16]
    case 36 => [32]
    case 37 => [32, 32]
    case 38 => [32, 32, 32, 32]
    case 50 | 54 | 55 | 56 => [16, 16, 16, 16]
    case _ => []
  }

  function Sum(widths: seq<nat>): nat {
    if widths == [] then 0 else widths[0] + Sum(widths[1..])
  }

  /** A destination's pixel size in bits is the sum of its channels' widths, and zero exactly for unknown formats. */
  lemma {:induction false} PixelSizeIsSumOfWidths(format: nat)
    ensures 8 * ResolveRouting.ColorFormatBytesPerPixel(format) == Sum(TextureWidths(format))
    ensures ResolveRouting.ColorFormatBytesPerPixel(format) == 0 <==> TextureWidths(format) == []
  {
    SumsOfOne(8);
    SumsOfOne(16);
    SumsOfOne(32);
    SumsOfThree(5, 6, 5);
    SumsOfThree(5, 5, 6);
    SumsOfThree(11, 11, 10);
    SumsOfThree(10, 11, 11);
    SumsOfFour(5, 5, 5, 1);
    SumsOfFour(8, 8, 8, 8);
    SumsOfFour(10, 10, 10, 2);
    SumsOfFour(4, 4, 4, 4);
    SumsOfFour(16, 16, 16, 16);
    SumsOfFour(32, 32, 32, 32);
    SumsOfTwo(8, 8);
    SumsOfTwo(8, 24);
    SumsOfTwo(16, 16);
    SumsOfTwo(32, 32);
  }

  lemma {:induction false} SumsOfOne(a: nat)
    ensures Sum([a]) == a
  {}

  lemma {:induction false} SumsOfTwo(a: nat, b: nat)
    ensures Sum([a, b]) == a + b
  {
    assert [a, b][1..] == [b];
    SumsOfOne(b);
  }

  lemma {:induction false} SumsOfThree(a: nat, b: nat, c: nat)
    ensures Sum([a, b, c]) == a + b + c
  {
    assert [a, b, c][1..] == [b, c];
    SumsOfTwo(b, c);
  }

  lemma {:induction false} SumsOfFour(a: nat, b: nat, c: nat, d: nat)
    ensures Sum([a, b, c, d]) == a + b + c + d
  {
    assert [a, b, c, d][1..] == [b, c, d];
    SumsOfThree(b, c, d);
  }
}
