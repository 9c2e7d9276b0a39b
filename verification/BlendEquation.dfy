/**
 * What a draw's blend register makes of its colours, and what the test for an identity blend decides:
 * the recorder takes a draw it holds for as one that reads nothing of its destination.
 */
module BlendEquation {
  import opened Wrappers
  import opened EdramFormats
  import opened FrameRecording

  // ---------------------------------------------------------------- the register

  datatype Factor =
    | Zero | One | SrcColor | OneMinusSrcColor | SrcAlpha | OneMinusSrcAlpha
    | DstColor | OneMinusDstColor | DstAlpha | OneMinusDstAlpha
    | ConstantColor | OneMinusConstantColor | ConstantAlpha | OneMinusConstantAlpha | SrcAlphaSaturate

  datatype Operation = Add | Subtract | Min | Max | ReverseSubtract

  function FactorOf(code: nat): Factor {
    match code
    case 0 => Zero
    case 4 => SrcColor
    case 5 => OneMinusSrcColor
    case 6 => SrcAlpha
    case 7 => OneMinusSrcAlpha
    case 8 => DstColor
    case 9 => OneMinusDstColor
    case 10 => DstAlpha
    case 11 => OneMinusDstAlpha
    case 12 => ConstantColor
    case 13 => OneMinusConstantColor
    case 14 => ConstantAlpha
    case 15 => OneMinusConstantAlpha
    case 16 => SrcAlphaSaturate
    case _ => One
  }

  function OperationOf(code: nat): Operation {
    match code
    case 1 => Subtract
    case 2 => Min
    case 3 => Max
    case 4 => ReverseSubtract
    case _ => Add
  }

  /** One half of the register: a source factor, an operation and a destination factor. */
  datatype Half = Half(source: nat, operation: nat, destination: nat)
  {
    predicate InRange() { source < 32 && operation < 8 && destination < 32 }

    function Bits(): nat { source + 0x20 * operation + 0x100 * destination }
  }

  /** The register with these halves, whatever its six unused bits hold. */
  function Register(color: Half, alpha: Half, spare: nat, spareTop: nat): nat {
    color.Bits() + 0x2000 * spare + 0x1_0000 * (alpha.Bits() + 0x2000 * spareTop)
  }

  const Replace := Half(1, 0, 0)

  // ---------------------------------------------------------------- the equation

  /** A factor on one channel, from the source's, the destination's and the constant's value and alpha. */
  function FactorOn(f: Factor, alpha: bool, s: real, sa: real, d: real, da: real, k: real, ka: real): real {
    match f
    case Zero => 0.0
    case One => 1.0
    case SrcColor => s
    case OneMinusSrcColor => 1.0 - s
    case SrcAlpha => sa
    case OneMinusSrcAlpha => 1.0 - sa
    case DstColor => d
    case OneMinusDstColor => 1.0 - d
    case DstAlpha => da
    case OneMinusDstAlpha => 1.0 - da
    case ConstantColor => k
    case OneMinusConstantColor => 1.0 - k
    case ConstantAlpha => ka
    case OneMinusConstantAlpha => 1.0 - ka
    case SrcAlphaSaturate => if alpha then 1.0 else if sa <= 1.0 - da then sa else 1.0 - da
  }

  function Combined(op: Operation, s: real, sf: real, d: real, df: real): real {
    match op
    case Add => s * sf + d * df
    case Subtract => s * sf - d * df
    case ReverseSubtract => d * df - s * sf
    case Min => if s <= d then s else d
    case Max => if s <= d then d else s
  }

  function BlendedChannel(h: Half, alpha: bool, s: real, sa: real, d: real, da: real, k: real, ka: real): real {
    Combined(OperationOf(h.operation), s, FactorOn(FactorOf(h.source), alpha, s, sa, d, da, k, ka),
             d, FactorOn(FactorOf(h.destination), alpha, s, sa, d, da, k, ka))
  }

  function Blended(color: Half, alpha: Half, src: Color, dst: Color, constant: Color): Color {
    Color(BlendedChannel(color, false, src.r, src.a, dst.r, dst.a, constant.r, constant.a),
          BlendedChannel(color, false, src.g, src.a, dst.g, dst.a, constant.g, constant.a),
          BlendedChannel(color, false, src.b, src.a, dst.b, dst.a, constant.b, constant.a),
          BlendedChannel(alpha, true, src.a, src.a, dst.a, dst.a, constant.a, constant.a))
  }

  /**
   * What the codes weigh by. The even ones from 4 to 14 are the source, its alpha, the destination, its alpha, the
   * constant and its alpha, and each odd one after them the rest to one.
   */
  lemma {:induction false} FactorsMean(code: nat, alpha: bool, s: real, sa: real, d: real, da: real, k: real, ka: real)
    ensures var f := FactorOn(FactorOf(code), alpha, s, sa, d, da, k, ka);
            && (code == 0 ==> f == 0.0) && (code == 1 ==> f == 1.0)
            && (4 <= code <= 15 ==>
                  var whole := [s, sa, d, da, k, ka][(code - 4) / 2]; f == if code % 2 == 0 then whole else 1.0 - whole)
            && (code == 16 ==> if alpha then f == 1.0 else f <= sa && f <= 1.0 - da && (f == sa || f == 1.0 - da))
  {
    assert 4 <= code <= 15 ==> (code - 4) / 2 in {0, 1, 2, 3, 4, 5};
  }

  /** What the operations make of two weighed colours; the least and the greatest ignore the weights. */
  lemma {:induction false} OperationsMean(code: nat, s: real, sf: real, d: real, df: real)
    ensures var c := Combined(OperationOf(code), s, sf, d, df);
            && (code == 0 ==> c == s * sf + d * df) && (code == 1 ==> c == s * sf - d * df) && (code == 4 ==> c == d * df - s * sf)
            && (code == 2 ==> c <= s && c <= d && (c == s || c == d)) && (code == 3 ==> c >= s && c >= d && (c == s || c == d))
  {}

  /** The blend gives the draw's own colour back, over every destination and with every constant. */
  ghost predicate KeepsSource(color: Half, alpha: Half) {
    forall src, dst, constant :: Blended(color, alpha, src, dst, constant) == src
  }

  // ---------------------------------------------------------------- what the test decides

  lemma {:induction false} LowBits(low: nat, high: nat)
    ensures low < 8 ==> (low + 8 * high) % 8 == low && (low + 8 * high) / 8 == high
    ensures low < 0x20 ==> (low + 0x20 * high) % 0x20 == low && (low + 0x20 * high) / 0x20 == high
    ensures low < 0x100 ==> (low + 0x100 * high) / 0x100 == high
  {}

  lemma {:induction false} FieldsOfHalf(h: Half, rest: nat)
    requires h.InRange()
    ensures var n := h.Bits() + 0x2000 * rest;
            n % 0x20 == h.source && n / 0x20 % 8 == h.operation && n / 0x100 % 0x20 == h.destination
  {
    LowBits(h.source, h.operation + 8 * (h.destination + 0x20 * rest));
    LowBits(h.operation, h.destination + 0x20 * rest);
    LowBits(h.source + 0x20 * h.operation, h.destination + 0x20 * rest);
    LowBits(h.destination, rest);
  }

  lemma {:induction false} HighShift(n: nat, high: nat)
    requires n < 0x1_0000
    ensures (n + 0x1_0000 * high) / 0x1_0000 == high
    ensures (n + 0x1_0000 * high) / 0x20_0000 == high / 0x20
    ensures (n + 0x1_0000 * high) / 0x100_0000 == high / 0x100
  {}

  /** A register assembled from its fields passes the test exactly when both halves are ONE, ADD, ZERO. */
  lemma {:induction false} IdentityIffReplace(color: Half, alpha: Half, spare: nat, spareTop: nat)
    requires color.InRange() && alpha.InRange() && spare < 8 && spareTop < 8
    ensures BlendIsIdentity(Register(color, alpha, spare, spareTop)) <==> color == Replace && alpha == Replace
  {
    FieldsOfHalf(color, spare + 8 * (alpha.Bits() + 0x2000 * spareTop));
    FieldsOfHalf(alpha, spareTop);
    assert Register(color, alpha, spare, spareTop)
        == color.Bits() + 0x2000 * (spare + 8 * (alpha.Bits() + 0x2000 * spareTop));
    HighShift(color.Bits() + 0x2000 * spare, alpha.Bits() + 0x2000 * spareTop);
  }

  /** Such a blend is the draw's own colour, so the pass may go without it. */
  lemma {:induction false} ReplaceKeepsSource()
    ensures KeepsSource(Replace, Replace)
  {}

  // ---------------------------------------------------------------- what it leaves out

  /**
   * The halves that give the source back although they are not all ONE, ADD, ZERO: subtracting a destination times
   * zero, and a sum in which the destination cancels; on alpha, two more names of the same factors.
   */
  predicate GivesSource(h: Half, alpha: bool) {
    var plain := h.source in {1, 2, 3} || h.source > 16;
    var adds := h.operation == 0 || h.operation > 4;
    || ((plain || (alpha && h.source == 16)) && h.destination == 0 && (adds || h.operation == 1))
    || (adds && (h.source == 9 || (alpha && h.source == 11)) && (h.destination == 4 || (alpha && h.destination == 6)))
  }

  /** Two inputs that tell every other half apart. */
  predicate SourceAtSamples(h: Half, alpha: bool) {
    if alpha then
      && BlendedChannel(h, true, 0.5, 0.5, 0.75, 0.75, 1.0, 1.0) == 0.5
      && BlendedChannel(h, true, 0.75, 0.75, 0.25, 0.25, 0.0, 0.0) == 0.75
    else
      && BlendedChannel(h, false, 0.25, 0.5, 1.0, 0.75, 0.75, 1.0) == 0.25
      && BlendedChannel(h, false, 1.0, 0.75, 0.75, 0.25, 0.5, 0.0) == 1.0
  }

  lemma {:induction false} SamplesTell(h: Half, alpha: bool)
    requires SourceAtSamples(h, alpha)
    ensures GivesSource(h, alpha)
  {}

  lemma {:induction false} CancelledSum(s: real, d: real)
    ensures s * (1.0 - d) + d * s == s
  {}

  lemma {:induction false} GivesSourceEverywhere(h: Half, alpha: bool, s: real, sa: real, d: real, da: real, k: real, ka: real)
    requires GivesSource(h, alpha) && (alpha ==> sa == s && da == d)
    ensures BlendedChannel(h, alpha, s, sa, d, da, k, ka) == s
  {
    CancelledSum(s, d);
  }

  /**
   * Exactly which registers keep the source. The test takes the plain one among them; for the others the recorder
   * converts a surface the draw does not depend on, which costs a conversion and changes no colour.
   */
  lemma {:induction false} KeepsSourceIff(color: Half, alpha: Half)
    ensures KeepsSource(color, alpha) <==> GivesSource(color, false) && GivesSource(alpha, true)
  {
    if KeepsSource(color, alpha) {
      var src, dst, constant := Color(0.25, 0.25, 0.25, 0.5), Color(1.0, 1.0, 1.0, 0.75), Color(0.75, 0.75, 0.75, 1.0);
      var src', dst', constant' := Color(1.0, 1.0, 1.0, 0.75), Color(0.75, 0.75, 0.75, 0.25), Color(0.5, 0.5, 0.5, 0.0);
      assert Blended(color, alpha, src, dst, constant) == src;
      assert Blended(color, alpha, src', dst', constant') == src';
      SamplesTell(color, false);
      SamplesTell(alpha, true);
    } else {
      var src, dst, constant :| Blended(color, alpha, src, dst, constant) != src;
      if GivesSource(color, false) && GivesSource(alpha, true) {
        GivesSourceEverywhere(color, false, src.r, src.a, dst.r, dst.a, constant.r, constant.a);
        GivesSourceEverywhere(color, false, src.g, src.a, dst.g, dst.a, constant.g, constant.a);
        GivesSourceEverywhere(color, false, src.b, src.a, dst.b, dst.a, constant.b, constant.a);
        GivesSourceEverywhere(alpha, true, src.a, src.a, dst.a, dst.a, constant.a, constant.a);
      }
    }
  }

  // ---------------------------------------------------------------- in the recorder

  /** The draw meets a surface of another format and may write it. */
  predicate MeetsFormat(cfg: Config, s: Recording, e: Entry)
    requires e.Draw?
  {
    var t := SurfaceAt(cfg, s, e.key);
    t.begun && t.format.Some? && t.format.value != StorageColorFormat(e.colorFormat)
  }

  /**
   * A draw that meets another format is relabelled without a conversion, as one that does not read, exactly when its
   * register's halves are both ONE, ADD, ZERO; and then its blend is its own colour whatever is there.
   */
  lemma {:induction false} NotReadIffReplace(cfg: Config, s: Recording, e: Entry, color: Half, alpha: Half, spare: nat, spareTop: nat)
    requires e.Draw? && MeetsFormat(cfg, s, e) && e.colorMask % 16 != 0 && e.hasFragmentStage
    requires color.InRange() && alpha.InRange() && spare < 8 && spareTop < 8
    requires e.blend0 == Register(color, alpha, spare, spareTop)
    ensures AfterFormatChange(cfg, s, e).counters.notRead
         == s.counters.notRead + if color == Replace && alpha == Replace then 1 else 0
    ensures AfterFormatChange(cfg, s, e).counters.notRead != s.counters.notRead ==> KeepsSource(color, alpha)
  {
    IdentityIffReplace(color, alpha, spare, spareTop);
    ReplaceKeepsSource();
    if !BlendIsIdentity(e.blend0) {
      assert AfterFormatChange(cfg, s, e).counters.notRead == s.counters.notRead;
    }
  }
}
