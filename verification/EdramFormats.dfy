/**
 * The 32-bit EDRAM colour formats: what a pixel's bits mean under each of them, and
 * the conversion that carries a host value from one format to another through the
 * bits the console would hold.
 *
 * Values are exact rationals. A 7e3 field with exponent e and mantissa m is
 * m/512 when e = 0 and (1 + m/128) * 2^(e-3) otherwise.
 */
module EdramFormats {

  datatype Color = Color(r: real, g: real, b: real, a: real)

  type Word = w: nat | w < 0x1_0000_0000

  const Black := Color(0.0, 0.0, 0.0, 0.0)

  /** RB_COLOR_INFO.color_format without the blending-precision modifier. */
  function StorageColorFormat(colorFormat: nat): nat {
    if colorFormat == 10 then 2
    else if colorFormat == 12 then 3
    else colorFormat
  }

  predicate ReinterpretSupported(storageFormat: nat) {
    storageFormat == 0 || storageFormat == 1 || storageFormat == 2 || storageFormat == 3
  }

  // ---------------------------------------------------------------- fixed-point fields

  function Clamp(v: real, lo: real, hi: real): real {
    if v < lo then lo else if v > hi then hi else v
  }

  /** `uint(clamp(v, 0, 1) * max + 0.5)`. */
  function ToUnorm(v: real, max: nat): nat {
    (Clamp(v, 0.0, 1.0) * max as real + 0.5).Floor
  }

  function FromUnorm(k: nat, max: nat): real
    requires 0 < max
  {
    k as real / max as real
  }

  lemma {:induction false} UnormRoundTrip(k: nat, max: nat)
    requires k <= max && 0 < max
    ensures ToUnorm(FromUnorm(k, max), max) == k
  {
    var v := FromUnorm(k, max);
    assert v * max as real == k as real;
    ScaledAboveOne(v, max as real);
    assert (k as real + 0.5).Floor == k;
  }

  lemma {:induction false} ScaledAboveOne(v: real, scale: real)
    requires scale > 0.0
    ensures v > 1.0 ==> v * scale > scale
    ensures v < 0.0 ==> v * scale < 0.0
  {}

  // ---------------------------------------------------------------- 7e3 fields

  /** 2^(e-3), the value a 7e3 exponent field e gives its implicit leading one. */
  function Leading(e: nat): real
    requires 1 <= e <= 7
  {
    [0.25, 0.5, 1.0, 2.0, 4.0, 8.0, 16.0][e - 1]
  }

  /** What the bits of a 7e3 field mean. */
  function From7e3(bits: nat): real
    requires bits < 1024
  {
    var e, m := bits / 128, bits % 128;
    if e == 0 then m as real / 512.0 else (1.0 + m as real / 128.0) * Leading(e)
  }

  function HighBit(m: nat): (msb: nat)
    requires 0 < m < 128
    ensures msb <= 6
    ensures m * ShiftUp(7 - msb) < 256 && m * ShiftUp(7 - msb) >= 128
  {
    if m < 2 then 0 else if m < 4 then 1 else if m < 8 then 2 else if m < 16 then 3
    else if m < 32 then 4 else if m < 64 then 5 else 6
  }

  function ShiftUp(n: nat): nat
    requires n <= 7
  {
    [1, 2, 4, 8, 16, 32, 64, 128][n]
  }

  /** The IEEE single with exponent field 124 + x and seven mantissa bits: (1 + m/128) * 2^(x-3). */
  function SingleOf(x: int, m: nat): real
    requires -6 <= x <= 7 && m < 128
  {
    (1.0 + m as real / 128.0)
    * [0.001953125, 0.00390625, 0.0078125, 0.015625, 0.03125, 0.0625, 0.125,
       0.25, 0.5, 1.0, 2.0, 4.0, 8.0, 16.0][x + 6]
  }

  /** The shader's own decoding, which normalises a denormal by its highest mantissa bit. */
  function ShaderFrom7e3(bits: nat): real
    requires bits < 1024
  {
    var e, m := bits / 128, bits % 128;
    if e != 0 then SingleOf(e, m)
    else if m == 0 then 0.0
    else
      var msb := HighBit(m);
      // The insertion at bit 7 drops the leading one that the shift moved there.
      SingleOf(msb - 6, m * ShiftUp(7 - msb) - 128)
  }

  lemma {:induction false} ShaderDecodesField(bits: nat)
    requires bits < 1024
    ensures ShaderFrom7e3(bits) == From7e3(bits)
  {
    var e, m := bits / 128, bits % 128;
    if e == 0 && m != 0 {
      var msb := HighBit(m);
      assert msb == 0 || msb == 1 || msb == 2 || msb == 3 || msb == 4 || msb == 5 || msb == 6;
    } else if e != 0 {
      assert e == 1 || e == 2 || e == 3 || e == 4 || e == 5 || e == 6 || e == 7;
    }
  }

  function ExponentField(v: real): (e: nat)
    requires 0.25 <= v <= 31.875
    ensures 1 <= e <= 7 && Leading(e) <= v < 2.0 * Leading(e)
  {
    if v < 0.5 then 1 else if v < 1.0 then 2 else if v < 2.0 then 3 else if v < 4.0 then 4
    else if v < 8.0 then 5 else if v < 16.0 then 6 else 7
  }

  /** The 7e3 number with sixteen more mantissa bits, as the shader holds it before rounding. */
  function Biased7e3(v: real): int
    requires 0.0 <= v <= 31.875
  {
    if v < 0.25 then (v * 33554432.0).Floor
    else
      var e := ExponentField(v);
      e * 8388608 + ((v / Leading(e) - 1.0) * 8388608.0).Floor
  }

  /** Round to nearest even on bit 16, then take ten bits. */
  function RoundTenBits(biased: int): nat {
    (biased + 0x7FFF + biased / 65536 % 2) / 65536 % 1024
  }

  function To7e3(v: real): nat {
    RoundTenBits(Biased7e3(Clamp(v, 0.0, 31.875)))
  }

  lemma {:induction false} BiasedOfNormal(e: nat, m: nat, v: real)
    requires 1 <= e <= 7 && m < 128
    requires v == (1.0 + m as real / 128.0) * Leading(e)
    ensures 0.25 <= v <= 31.875
    ensures Biased7e3(v) == (e * 128 + m) * 65536
  {
    assert Leading(e) > 0.0;
    assert e == 1 || e == 2 || e == 3 || e == 4 || e == 5 || e == 6 || e == 7;
    assert ExponentField(v) == e;
    assert v / Leading(e) == 1.0 + m as real / 128.0;
    var x := (m as real / 128.0) * 8388608.0;
    assert x == (m * 65536) as real;
    assert x.Floor == m * 65536;
  }

  lemma {:induction false} RoundingKeepsTenBits(bits: nat)
    requires bits < 1024
    ensures RoundTenBits(bits * 65536) == bits
  {
    assert bits * 65536 / 65536 == bits;
    assert (bits * 65536 + 0x7FFF + bits % 2) / 65536 == bits;
  }

  lemma {:induction false} BiasedOfDenormal(m: nat)
    requires m < 128
    ensures From7e3(m) == m as real / 512.0 && Clamp(From7e3(m), 0.0, 31.875) == From7e3(m)
    ensures Biased7e3(From7e3(m)) == m * 65536
  {
    var v := m as real / 512.0;
    assert v * 33554432.0 == (m * 65536) as real;
  }

  lemma {:induction false} Field7e3RoundTrip(bits: nat)
    requires bits < 1024
    ensures To7e3(From7e3(bits)) == bits
  {
    var e, m := bits / 128, bits % 128;
    RoundingKeepsTenBits(bits);
    if e == 0 {
      BiasedOfDenormal(bits);
    } else {
      BiasedOfNormal(e, m, From7e3(bits));
    }
  }

  // ---------------------------------------------------------------- rounding to a field

  lemma {:induction false} RoundsHalfEven(k: nat, n: nat)
    requires k < 1023 && n < 65536
    ensures RoundTenBits(65536 * k + n)
         == if n < 32768 then k else if n > 32768 then k + 1 else if k % 2 == 0 then k else k + 1
  {
    var t := 65536 * k + n;
    assert t / 65536 == k;
    var sum := t + 0x7FFF + k % 2;
    assert sum / 65536 == if n + 0x7FFF + k % 2 >= 65536 then k + 1 else k;
  }

  lemma {:induction false} FloorShift(x: real, n: int)
    ensures (x + n as real).Floor == x.Floor + n
  {}

  /** Between two fields the biased number goes up evenly, in steps of a 65536th. */
  lemma {:induction false} BiasedBetweenDenormals(k: nat, x: real)
    requires k < 128 && 0.0 <= x < 1.0
    ensures From7e3(k + 1) - From7e3(k) == 1.0 / 512.0
    ensures 0.0 <= From7e3(k) + x / 512.0 < 0.25
    ensures Biased7e3(From7e3(k) + x / 512.0) == 65536 * k + (x * 65536.0).Floor
  {
    assert From7e3(k) == k as real / 512.0;
    assert From7e3(128) == 0.25;
    var v := From7e3(k) + x / 512.0;
    assert v * 33554432.0 == x * 65536.0 + (65536 * k) as real;
    FloorShift(x * 65536.0, 65536 * k);
  }

  lemma {:induction false} StepOfNormal(e: nat, m: nat)
    requires 1 <= e <= 7 && m < 128 && 128 * e + m < 1023
    ensures From7e3(128 * e + m) == (1.0 + m as real / 128.0) * Leading(e)
    ensures From7e3(128 * e + m + 1) - From7e3(128 * e + m) == Leading(e) / 128.0
  {
    assert (128 * e + m) / 128 == e && (128 * e + m) % 128 == m;
    if m < 127 {
      assert (128 * e + m + 1) / 128 == e && (128 * e + m + 1) % 128 == m + 1;
    } else {
      assert (128 * e + m + 1) / 128 == e + 1 && (128 * e + m + 1) % 128 == 0;
      assert e == 1 || e == 2 || e == 3 || e == 4 || e == 5 || e == 6;
    }
    assert e == 1 || e == 2 || e == 3 || e == 4 || e == 5 || e == 6 || e == 7;
  }

  lemma {:induction false} FractionOfNormal(e: nat, m: nat, x: real, v: real)
    requires 1 <= e <= 7 && m < 128 && 0.0 <= x < 1.0
    requires v == (1.0 + (m as real + x) / 128.0) * Leading(e)
    ensures Leading(e) <= v < 2.0 * Leading(e) && v / Leading(e) == 1.0 + (m as real + x) / 128.0
  {
    assert e == 1 || e == 2 || e == 3 || e == 4 || e == 5 || e == 6 || e == 7;
  }

  lemma {:induction false} BiasedBetweenNormals(e: nat, m: nat, x: real, v: real)
    requires 1 <= e <= 7 && m < 128 && 128 * e + m < 1023 && 0.0 <= x < 1.0
    requires v == (1.0 + (m as real + x) / 128.0) * Leading(e) && v <= 31.875
    ensures 0.25 <= v && Biased7e3(v) == 65536 * (128 * e + m) + (x * 65536.0).Floor
  {
    FractionOfNormal(e, m, x, v);
    assert e == 1 || e == 2 || e == 3 || e == 4 || e == 5 || e == 6 || e == 7;
    assert ExponentField(v) == e;
    assert (v / Leading(e) - 1.0) * 8388608.0 == x * 65536.0 + (65536 * m) as real;
    FloorShift(x * 65536.0, 65536 * m);
  }

  lemma {:induction false} BetweenNormals(e: nat, m: nat, x: real)
    requires 1 <= e <= 7 && m < 128 && 128 * e + m < 1023 && 0.0 <= x < 1.0
    ensures var k := 128 * e + m;
            From7e3(k) + x * (From7e3(k + 1) - From7e3(k)) == (1.0 + (m as real + x) / 128.0) * Leading(e) <= 31.875
  {
    StepOfNormal(e, m);
    assert e == 1 || e == 2 || e == 3 || e == 4 || e == 5 || e == 6 || e == 7;
  }

  /** The value a part of the way from one field to the next. */
  function Between(k: nat, x: real): real
    requires k < 1023
  {
    From7e3(k) + x * (From7e3(k + 1) - From7e3(k))
  }

  lemma {:induction false} ScaledStep(x: real, step: real)
    requires step == 1.0 / 512.0
    ensures x * step == x / 512.0
  {}

  lemma {:induction false} BetweenLow(k: nat, x: real)
    requires k < 128 && 0.0 <= x < 1.0
    ensures 0.0 <= Between(k, x) <= 31.875 && Biased7e3(Between(k, x)) == 65536 * k + (x * 65536.0).Floor
  {
    BiasedBetweenDenormals(k, x);
    ScaledStep(x, From7e3(k + 1) - From7e3(k));
    assert Between(k, x) == From7e3(k) + x / 512.0;
  }

  lemma {:induction false} BetweenHigh(e: nat, m: nat, x: real)
    requires 1 <= e <= 7 && m < 128 && 128 * e + m < 1023 && 0.0 <= x < 1.0
    ensures var k := 128 * e + m;
            0.0 <= Between(k, x) <= 31.875 && Biased7e3(Between(k, x)) == 65536 * k + (x * 65536.0).Floor
  {
    BetweenNormals(e, m, x);
    BiasedBetweenNormals(e, m, x, Between(128 * e + m, x));
  }

  lemma {:induction false} InRangeIsBiased(v: real)
    ensures 0.0 <= v <= 31.875 ==> To7e3(v) == RoundTenBits(Biased7e3(v))
    ensures v <= 0.0 ==> To7e3(v) == To7e3(0.0)
    ensures v >= 31.875 ==> To7e3(v) == To7e3(31.875)
  {}

  /**
   * A value part of the way from one field to the next is rounded to the nearer of the two, and half way to the
   * even one, by its distance in 65536ths.
   */
  lemma {:induction false} To7e3IsNearest(k: nat, x: real)
    requires k < 1023 && 0.0 <= x < 1.0
    ensures var n := (x * 65536.0).Floor;
            To7e3(From7e3(k) + x * (From7e3(k + 1) - From7e3(k)))
            == if n < 32768 then k else if n > 32768 then k + 1 else if k % 2 == 0 then k else k + 1
  {
    BiasedBetween(k, x, Between(k, x));
    RoundsHalfEven(k, (x * 65536.0).Floor);
  }

  lemma {:induction false} BiasedBetween(k: nat, x: real, v: real)
    requires k < 1023 && 0.0 <= x < 1.0 && v == Between(k, x)
    ensures To7e3(v) == RoundTenBits(65536 * k + (x * 65536.0).Floor)
    ensures 0 <= (x * 65536.0).Floor < 65536
  {
    if k < 128 {
      BetweenLow(k, x);
    } else {
      BetweenHigh(k / 128, k % 128, x);
      assert k == 128 * (k / 128) + k % 128;
    }
    InRangeIsBiased(v);
  }

  /** Values out of range take the end of the range. */
  lemma {:induction false} EndsOfRange(v: real)
    ensures v <= 0.0 ==> To7e3(v) == 0
    ensures v >= 31.875 ==> To7e3(v) == 1023
  {
    InRangeIsBiased(v);
    Field7e3RoundTrip(0);
    Field7e3RoundTrip(1023);
    assert From7e3(0) == 0.0 && From7e3(1023) == 31.875;
  }

  /** A fixed-point field is the nearest level, and the upper one half way; values out of range take the end of the range. */
  lemma {:induction false} UnormIsNearest(v: real, max: nat, k: nat)
    requires max > 0
    ensures 0.0 <= v <= 1.0 ==> (ToUnorm(v, max) == k <==> k as real - 0.5 <= v * max as real < k as real + 0.5)
    ensures v <= 0.0 ==> ToUnorm(v, max) == 0
    ensures v >= 1.0 ==> ToUnorm(v, max) == max
  {}

  // ---------------------------------------------------------------- pixels

  function Fields8(w: Word): (nat, nat, nat, nat) {
    (w % 256, w / 256 % 256, w / 256 / 256 % 256, w / 256 / 256 / 256)
  }

  function Fields10(w: Word): (nat, nat, nat, nat) {
    (w % 1024, w / 1024 % 1024, w / 1024 / 1024 % 1024, w / 1024 / 1024 / 1024)
  }

  /** A field outside its width would not fit a word; the encoders never produce one. */
  function Join(r: nat, g: nat, b: nat, a: nat, width: nat): Word {
    (r + width * (g + width * (b + width * a))) % 0x1_0000_0000
  }

  function Pack(c: Color, format: nat): Word {
    if format == 0 || format == 1 then
      Join(ToUnorm(c.r, 255), ToUnorm(c.g, 255), ToUnorm(c.b, 255), ToUnorm(c.a, 255), 256)
    else if format == 2 then
      Join(ToUnorm(c.r, 1023), ToUnorm(c.g, 1023), ToUnorm(c.b, 1023), ToUnorm(c.a, 3), 1024)
    else if format == 3 then
      Join(To7e3(c.r), To7e3(c.g), To7e3(c.b), ToUnorm(c.a, 3), 1024)
    else 0
  }

  function Unpack(w: Word, format: nat): Color {
    if format == 0 || format == 1 then
      var (r, g, b, a) := Fields8(w);
      Color(FromUnorm(r, 255), FromUnorm(g, 255), FromUnorm(b, 255), FromUnorm(a, 255))
    else if format == 2 then
      var (r, g, b, a) := Fields10(w);
      Color(FromUnorm(r, 1023), FromUnorm(g, 1023), FromUnorm(b, 1023), FromUnorm(a, 3))
    else if format == 3 then
      var (r, g, b, a) := Fields10(w);
      Color(From7e3(r), From7e3(g), From7e3(b), FromUnorm(a, 3))
    else Black
  }

  /** The conversion pass on one texel. */
  function Reinterpret(c: Color, from: nat, to: nat): Color {
    Unpack(Pack(c, from), to)
  }

  lemma {:induction false} JoinBytes(w: Word)
    ensures var (r, g, b, a) := Fields8(w); r < 256 && g < 256 && b < 256 && a < 256 && Join(r, g, b, a, 256) == w
  {
    var x, y, z := w / 256, w / 256 / 256, w / 256 / 256 / 256;
    assert w == w % 256 + 256 * x && x == x % 256 + 256 * y && y == y % 256 + 256 * z;
  }

  lemma {:induction false} JoinTens(w: Word)
    ensures var (r, g, b, a) := Fields10(w); r < 1024 && g < 1024 && b < 1024 && a < 4 && Join(r, g, b, a, 1024) == w
  {
    var x, y, z := w / 1024, w / 1024 / 1024, w / 1024 / 1024 / 1024;
    assert w == w % 1024 + 1024 * x && x == x % 1024 + 1024 * y && y == y % 1024 + 1024 * z;
  }

  lemma {:induction false} PackInvertsUnpackFloat(w: Word)
    ensures Pack(Unpack(w, 3), 3) == w
  {
    var (r, g, b, a) := Fields10(w);
    JoinTens(w);
    var c := Unpack(w, 3);
    assert To7e3(c.r) == r by { Field7e3RoundTrip(r); }
    assert To7e3(c.g) == g by { Field7e3RoundTrip(g); }
    assert To7e3(c.b) == b by { Field7e3RoundTrip(b); }
    assert ToUnorm(c.a, 3) == a by { UnormRoundTrip(a, 3); }
  }

  /** Every 32-bit pattern survives being read as a value and packed again, under every format. */
  lemma {:induction false} PackInvertsUnpack(w: Word, format: nat)
    requires ReinterpretSupported(format)
    ensures Pack(Unpack(w, format), format) == w
  {
    if format == 3 {
      PackInvertsUnpackFloat(w);
    } else {
      JoinBytes(w);
      JoinTens(w);
      var (r, g, b, a) := if format == 2 then Fields10(w) else Fields8(w);
      var max, alphaMax := if format == 2 then 1023 else 255, if format == 2 then 3 else 255;
      UnormRoundTrip(r, max);
      UnormRoundTrip(g, max);
      UnormRoundTrip(b, max);
      UnormRoundTrip(a, alphaMax);
    }
  }

  function ReinterpretAll(c: Color, formats: seq<nat>): Color
    requires formats != []
    decreases |formats|
  {
    if |formats| == 1 then c
    else ReinterpretAll(Reinterpret(c, formats[0], formats[1]), formats[1..])
  }

  /**
   * A chain of format changes with nothing written in between is the direct change. In
   * particular a chain that ends where it began gives every stored value back.
   */
  lemma {:induction false} ChainIsDirect(w: Word, formats: seq<nat>)
    requires formats != [] && forall i :: 0 <= i < |formats| ==> ReinterpretSupported(formats[i])
    ensures ReinterpretAll(Unpack(w, formats[0]), formats) == Unpack(w, formats[|formats| - 1])
    decreases |formats|
  {
    if |formats| > 1 {
      PackInvertsUnpack(w, formats[0]);
      var rest := formats[1..];
      assert forall i :: 0 <= i < |rest| ==> rest[i] == formats[i + 1];
      ChainIsDirect(w, rest);
    }
  }

  lemma {:induction false} SelfTestFloat(k: nat, v: real)
    requires (k == 0 && v == 0.0) || (k == 576 && v == 3.0)
    ensures To7e3(v) == k && From7e3(k) == v
  {
    SelfTestFloatReads();
    Field7e3RoundTrip(k);
  }

  lemma {:induction false} SelfTestFloatReads()
    ensures From7e3(0) == 0.0 && From7e3(576) == 3.0
  {}

  lemma {:induction false} SelfTestWhite()
    ensures Pack(Color(1.0, 1.0, 1.0, 1.0), 2) == Pack(Color(1.0, 1.0, 1.0, 1.0), 0) == 0xFFFF_FFFF
    ensures Pack(Color(0.5, 0.5, 0.5, 0.5), 0) == 0x8080_8080
  {
    assert ToUnorm(1.0, 1023) == 1023 && ToUnorm(1.0, 255) == 255 && ToUnorm(1.0, 3) == 3;
    assert ToUnorm(0.5, 255) == 128;
  }

  lemma {:induction false} JoinedHdr()
    ensures Join(576, 0, 0, 0, 1024) == 576
    ensures Join(576, 576, 576, 3, 1024) == 576 + 576 * 1024 + 576 * 1048576 + 3 * 1073741824
  {}

  lemma {:induction false} PackIsJoin(color: Color)
    ensures Pack(color, 3) == Join(To7e3(color.r), To7e3(color.g), To7e3(color.b), ToUnorm(color.a, 3), 1024)
  {}

  lemma {:induction false} SelfTestAlpha()
    ensures ToUnorm(1.0, 3) == 3 && ToUnorm(0.0, 3) == 0
  {}

  lemma {:induction false} SelfTestHdr()
    ensures Pack(Color(3.0, 0.0, 0.0, 0.0), 3) == 576
    ensures Pack(Color(3.0, 3.0, 3.0, 1.0), 3) == 576 + 576 * 1024 + 576 * 1048576 + 3 * 1073741824
  {
    SelfTestFloat(0, 0.0);
    SelfTestFloat(576, 3.0);
    SelfTestAlpha();
    PackIsJoin(Color(3.0, 0.0, 0.0, 0.0));
    PackIsJoin(Color(3.0, 3.0, 3.0, 1.0));
    JoinedHdr();
  }

  lemma {:induction false} SelfTestReads()
    ensures Unpack(0xFFFF_FFFF, 3) == Color(31.875, 31.875, 31.875, 1.0)
    ensures Unpack(0xFFFF_FFFF, 2) == Color(1.0, 1.0, 1.0, 1.0)
    ensures Unpack(0x8080_8080, 3) == Color(0.25, 0.0625, 0.015625, 2.0 / 3.0)
  {
    assert From7e3(1023) == 31.875 && From7e3(128) == 0.25 && From7e3(32) == 0.0625 && From7e3(8) == 0.015625;
    assert Fields10(0x8080_8080) == (128, 32, 8, 2);
    assert Fields10(0xFFFF_FFFF) == (1023, 1023, 1023, 3);
  }

  lemma {:induction false} SelfTestHdrReads()
    ensures Unpack(576, 0) == Color(64.0 / 255.0, 2.0 / 255.0, 0.0, 0.0)
    ensures Unpack(576, 3) == Color(3.0, 0.0, 0.0, 0.0)
    ensures Unpack(576 + 576 * 1024 + 576 * 1048576 + 3 * 1073741824, 2)
            == Color(576.0 / 1023.0, 576.0 / 1023.0, 576.0 / 1023.0, 1.0)
  {
    assert Fields8(576) == (64, 2, 0, 0);
    assert Fields10(576) == (576, 0, 0, 0);
    assert Fields10(576 + 576 * 1024 + 576 * 1048576 + 3 * 1073741824) == (576, 576, 576, 3);
    SelfTestFloat(0, 0.0);
    SelfTestFloat(576, 3.0);
  }

  /** The six worked cases of the self-test, the fifth starting from the result of the fourth. */
  lemma {:induction false} SelfTestCases()
    ensures Reinterpret(Color(1.0, 1.0, 1.0, 1.0), 2, 3) == Color(31.875, 31.875, 31.875, 1.0)
    ensures Reinterpret(Color(0.5, 0.5, 0.5, 0.5), 0, 3) == Color(0.25, 0.0625, 0.015625, 2.0 / 3.0)
    ensures Reinterpret(Color(1.0, 1.0, 1.0, 1.0), 0, 2) == Color(1.0, 1.0, 1.0, 1.0)
    ensures Reinterpret(Color(3.0, 0.0, 0.0, 0.0), 3, 0) == Color(64.0 / 255.0, 2.0 / 255.0, 0.0, 0.0)
    ensures Reinterpret(Reinterpret(Color(3.0, 0.0, 0.0, 0.0), 3, 0), 0, 3) == Color(3.0, 0.0, 0.0, 0.0)
    ensures Reinterpret(Color(3.0, 3.0, 3.0, 1.0), 3, 2)
            == Color(576.0 / 1023.0, 576.0 / 1023.0, 576.0 / 1023.0, 1.0)
  {
    SelfTestWhite();
    SelfTestHdr();
    SelfTestReads();
    SelfTestHdrReads();
    PackInvertsUnpack(576, 0);
  }
}
