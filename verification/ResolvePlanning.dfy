/**
 * The two passes over a frame's draws that run before any of them is prepared: which formats each
 * base is rendered in, and where each resolve of the frame goes.
 */
module ResolvePlanning {

  import opened Wrappers
  import opened ResolveRouting

  /** The registers a plan reads: four colour surfaces, the depth one, and the copy's own. */
  datatype Registers = Registers(modeControl: nat, colorInfo: nat, colorInfo1: nat, colorInfo2: nat,
                                 colorInfo3: nat, depthInfo: nat, copyControl: nat, copyDestBase: nat,
                                 copyDestPitch: nat, copyDestInfo: nat)

  type Draw = Option<Registers>

  /** The field of a register above the bits below place, and size values wide. */
  function Field(value: nat, place: nat, size: nat): nat
    requires place > 0 && size > 0
  {
    value / place % size
  }

  predicate Renders(d: Draw) {
    d.Some? && Field(d.value.modeControl, 1, 8) in {4, 5}
  }

  predicate Copies(d: Draw) {
    d.Some? && Field(d.value.modeControl, 1, 8) == 6
  }

  predicate CopiesDepth(d: Draw) {
    Copies(d) && Field(d.value.copyControl, 1, 8) >= 4
  }

  function SurfaceBase(colorInfo: nat): nat {
    Field(colorInfo, 1, 0x1000)
  }

  function SurfaceFormat(colorInfo: nat): nat {
    Field(colorInfo, 0x1_0000, 16)
  }

  function DestBase(r: Registers): nat {
    r.copyDestBase - r.copyDestBase % 0x1000
  }

  function DepthDestFormat(depthInfo: nat): nat {
    if Field(depthInfo, 0x1_0000, 2) == 1 then 23 else 22
  }

  /** The colour surface a copy reads: the select's low two bits. */
  function CopiedColorInfo(r: Registers): nat {
    match Field(r.copyControl, 1, 8) % 4
    case 0 => r.colorInfo
    case 1 => r.colorInfo1
    case 2 => r.colorInfo2
    case _ => r.colorInfo3
  }

  function DepthRequest(r: Registers): Request {
    Request(DestBase(r), Field(r.depthInfo, 1, 0x1000), Field(r.copyDestPitch, 1, 0x4000),
            Field(r.copyDestPitch, 0x1_0000, 0x4000), DepthDestFormat(r.depthInfo), true)
  }

  function ColorRequest(r: Registers): Request {
    Request(DestBase(r), SurfaceBase(CopiedColorInfo(r)), Field(r.copyDestPitch, 1, 0x4000),
            Field(r.copyDestPitch, 0x1_0000, 0x4000), Field(r.copyDestInfo, 0x80, 0x40), false)
  }

  // ---------------------------------------------------------------- pass one

  type Formats = map<nat, set<nat>>

  function FormatsOf(formats: Formats, base: nat): set<nat> {
    if base in formats then formats[base] else {}
  }

  method PlanFormats(draws: seq<Draw>) returns (formatsPerBase: Formats)
    ensures forall base, format ::
              format in FormatsOf(formatsPerBase, base) <==> RenderedIn(draws, base, format)
    ensures forall base :: base in formatsPerBase ==> formatsPerBase[base] != {}
  {
    formatsPerBase := map[];
    for i := 0 to |draws|
      invariant forall base, format ::
                  format in FormatsOf(formatsPerBase, base) <==> RenderedIn(draws[..i], base, format)
      invariant forall base :: base in formatsPerBase ==> formatsPerBase[base] != {}
    {
      var d := draws[i];
      forall base, format
        ensures RenderedIn(draws[..i + 1], base, format) <==>
                  RenderedIn(draws[..i], base, format) || RendersIn(d, base, format)
      {
        RenderedSnoc(draws, i, base, format);
      }
      if Renders(d) {
        var base := SurfaceBase(d.value.colorInfo);
        var format := SurfaceFormat(d.value.colorInfo);
        InsertedFormat(formatsPerBase, base, format);
        formatsPerBase := formatsPerBase[base := FormatsOf(formatsPerBase, base) + {format}];
      }
    }
    assert draws[..|draws|] == draws;
  }

  lemma {:induction false} InsertedFormat(formats: Formats, base: nat, format: nat)
    ensures var more := formats[base := FormatsOf(formats, base) + {format}];
            forall b, f :: f in FormatsOf(more, b) <==> f in FormatsOf(formats, b) || (b == base && f == format)
  {}

  predicate RendersIn(d: Draw, base: nat, format: nat) {
    Renders(d) && SurfaceBase(d.value.colorInfo) == base && SurfaceFormat(d.value.colorInfo) == format
  }

  predicate RenderedIn(draws: seq<Draw>, base: nat, format: nat) {
    exists i :: 0 <= i < |draws| && RendersIn(draws[i], base, format)
  }

  lemma {:induction false} RenderedSnoc(draws: seq<Draw>, n: nat, base: nat, format: nat)
    requires n < |draws|
    ensures RenderedIn(draws[..n + 1], base, format) <==>
              RenderedIn(draws[..n], base, format) || RendersIn(draws[n], base, format)
  {
    if RenderedIn(draws[..n], base, format) {
      var i :| 0 <= i < n && RendersIn(draws[..n][i], base, format);
      assert draws[..n + 1][i] == draws[..n][i];
    }
    if RenderedIn(draws[..n + 1], base, format) {
      var i :| 0 <= i < n + 1 && RendersIn(draws[..n + 1][i], base, format);
      assert i < n ==> draws[..n][i] == draws[..n + 1][i];
    }
    assert draws[..n + 1][n] == draws[n];
  }

  // ---------------------------------------------------------------- pass two

  datatype Plan = Plan(cache: Cache, routing: map<nat, Route>, dests: set<nat>, depthDests: set<nat>,
                       drawCount: nat, unmatched: nat, depthRouted: nat, depthUnrouted: nat)

  function Routed(p: Plan, dest: nat, route: Route): Plan {
    p.(routing := p.routing[dest := route], dests := p.dests + {route.texture}, drawCount := p.drawCount + 1)
  }

  ghost function AfterDepthCopy(p: Plan, r: Registers, driver: Driver): Plan {
    if DestBase(r) == 0 then p.(depthUnrouted := p.depthUnrouted + 1)
    else
      var got := AfterRequest(p.cache, DepthRequest(r), driver);
      var met := p.(cache := got.0, depthDests := p.depthDests + {DestBase(r)});
      if got.1.None? then met.(depthUnrouted := met.depthUnrouted + 1)
      else Routed(met.(depthRouted := met.depthRouted + 1), DestBase(r), got.1.value)
  }

  ghost function AfterColorCopy(p: Plan, r: Registers, formats: Formats, driver: Driver): Plan {
    if DestBase(r) == 0 then p
    else if SurfaceBase(CopiedColorInfo(r)) !in formats then p.(unmatched := p.unmatched + 1)
    else
      var got := AfterRequest(p.cache, ColorRequest(r), driver);
      var met := p.(cache := got.0);
      if got.1.None? then met else Routed(met, DestBase(r), got.1.value)
  }

  ghost function AfterDraw(p: Plan, d: Draw, formats: Formats, driver: Driver): Plan {
    if !Copies(d) then p
    else if CopiesDepth(d) then AfterDepthCopy(p, d.value, driver)
    else AfterColorCopy(p, d.value, formats, driver)
  }

  ghost function AfterDraws(p: Plan, draws: seq<Draw>, formats: Formats, driver: Driver): Plan
    decreases |draws|
  {
    if draws == [] then p
    else AfterDraw(AfterDraws(p, draws[..|draws| - 1], formats, driver), draws[|draws| - 1], formats, driver)
  }

  function NoPlan(cache: Cache): Plan {
    Plan(cache, map[], {}, {}, 0, 0, 0, 0)
  }

  method PlanRoutes(draws: seq<Draw>, formats: Formats, targets: ResolveTargets) returns (p: Plan)
    modifies targets
    ensures p == AfterDraws(NoPlan(old(targets.State())), draws, formats, targets.driver)
    ensures p.cache == targets.State()
  {
    ghost var start := NoPlan(targets.State());
    var routing: map<nat, Route>, dests: set<nat>, depthDests: set<nat> := map[], {}, {};
    var drawCount: nat, unmatched: nat, depthRouted: nat, depthUnrouted: nat := 0, 0, 0, 0;
    for i := 0 to |draws|
      invariant AfterDraws(start, draws[..i], formats, targets.driver)
             == Plan(targets.State(), routing, dests, depthDests, drawCount, unmatched, depthRouted, depthUnrouted)
    {
      assert draws[..i + 1][..i] == draws[..i];
      var d := draws[i];
      if !Copies(d) {
        continue;
      }
      var r := d.value;
      var destBase := DestBase(r);
      if Field(r.copyControl, 1, 8) >= 4 {
        if destBase == 0 {
          depthUnrouted := depthUnrouted + 1;
          continue;
        }
        depthDests := depthDests + {destBase};
        var route := targets.GetResolveTarget(DepthRequest(r));
        if route.None? {
          depthUnrouted := depthUnrouted + 1;
          continue;
        }
        depthRouted := depthRouted + 1;
        routing := routing[destBase := route.value];
        dests := dests + {route.value.texture};
        drawCount := drawCount + 1;
        continue;
      }
      if destBase == 0 {
        continue;
      }
      if SurfaceBase(CopiedColorInfo(r)) !in formats {
        unmatched := unmatched + 1;
        continue;
      }
      var route := targets.GetResolveTarget(ColorRequest(r));
      if route.None? {
        continue;
      }
      routing := routing[destBase := route.value];
      dests := dests + {route.value.texture};
      drawCount := drawCount + 1;
    }
    assert draws[..|draws|] == draws;
    p := Plan(Cache(targets.textures, targets.generation, targets.noFormat, targets.attempts), routing, dests, depthDests, drawCount, unmatched, depthRouted, depthUnrouted);
  }

  // ---------------------------------------------------------------- what the registers name

  /** A copy as the guest means it; the numbers of the registers below and above the fields do not matter. */
  datatype Meaning = Meaning(select: nat, page: nat, pitch: nat, height: nat, destFormat: nat,
                             colorBases: seq<nat>, depthBase: nat, depthIsFloat: bool)

  /** A register with a field between two other numbers. */
  predicate Between(register: nat, field: nat, place: nat, size: nat, low: nat, high: nat) {
    low < place && register == low + place * (field + size * high)
  }

  ghost predicate Holding(register: nat, field: nat, place: nat, size: nat) {
    place > 0 && field < size && exists low: nat, high: nat :: Between(register, field, place, size, low, high)
  }

  lemma {:induction false} FieldReadsBack(register: nat, field: nat, place: nat, size: nat)
    requires Holding(register, field, place, size)
    ensures Field(register, place, size) == field
  {
    var low: nat, high: nat :| Between(register, field, place, size, low, high);
    QuotientAndRest(register, place, field + size * high, low);
    QuotientAndRest(field + size * high, size, high, field);
  }

  lemma {:induction false} QuotientAndRest(n: nat, d: nat, q: nat, rest: nat)
    requires d > 0 && rest < d && n == rest + d * q
    ensures n / d == q && n % d == rest
  {
    if n / d < q {
      StepsUp(d, n / d + 1, q);
    } else if n / d > q {
      StepsUp(d, q + 1, n / d);
    }
  }

  lemma {:induction false} StepsUp(d: nat, few: nat, many: nat)
    requires few <= many
    ensures d * few <= d * many
  {}

  ghost predicate Means(r: Registers, c: Meaning) {
    && |c.colorBases| == 4 && c.page > 0
    && Holding(r.modeControl, 6, 1, 8)
    && Holding(r.copyControl, c.select, 1, 8)
    && 0x1000 * c.page <= r.copyDestBase < 0x1000 * c.page + 0x1000
    && Holding(r.copyDestPitch, c.pitch, 1, 0x4000) && Holding(r.copyDestPitch, c.height, 0x1_0000, 0x4000)
    && Holding(r.copyDestInfo, c.destFormat, 0x80, 0x40)
    && Holding(r.colorInfo, c.colorBases[0], 1, 0x1000) && Holding(r.colorInfo1, c.colorBases[1], 1, 0x1000)
    && Holding(r.colorInfo2, c.colorBases[2], 1, 0x1000) && Holding(r.colorInfo3, c.colorBases[3], 1, 0x1000)
    && Holding(r.depthInfo, c.depthBase, 1, 0x1000) && Holding(r.depthInfo, if c.depthIsFloat then 1 else 0, 0x1_0000, 2)
  }

  /** The texture made for a copy, if one is made at its own destination. */
  function TextureFor(c: Meaning): Texture
    requires |c.colorBases| == 4
  {
    if c.select >= 4 then
      var format := if c.depthIsFloat then 23 else 22;
      Texture(0x1000 * c.page, c.depthBase, c.pitch, c.height, 4, format, true)
    else
      Texture(0x1000 * c.page, c.colorBases[c.select], c.pitch, c.height, ColorFormatBytesPerPixel(c.destFormat),
              c.destFormat, false)
  }

  /** What the registers' fields read as. */
  predicate Reads(r: Registers, c: Meaning)
    requires |c.colorBases| == 4
  {
    && Field(r.modeControl, 1, 8) == 6 && Field(r.copyControl, 1, 8) == c.select
    && Field(r.copyDestPitch, 1, 0x4000) == c.pitch && Field(r.copyDestPitch, 0x1_0000, 0x4000) == c.height
    && Field(r.copyDestInfo, 0x80, 0x40) == c.destFormat
    && Field(r.colorInfo, 1, 0x1000) == c.colorBases[0] && Field(r.colorInfo1, 1, 0x1000) == c.colorBases[1]
    && Field(r.colorInfo2, 1, 0x1000) == c.colorBases[2] && Field(r.colorInfo3, 1, 0x1000) == c.colorBases[3]
    && Field(r.depthInfo, 1, 0x1000) == c.depthBase && Field(r.depthInfo, 0x1_0000, 2) == (if c.depthIsFloat then 1 else 0)
  }

  lemma {:induction false} MeantReads(r: Registers, c: Meaning)
    requires Means(r, c)
    ensures Reads(r, c)
  {
    FieldReadsBack(r.modeControl, 6, 1, 8);
    FieldReadsBack(r.copyControl, c.select, 1, 8);
    FieldReadsBack(r.copyDestPitch, c.pitch, 1, 0x4000);
    FieldReadsBack(r.copyDestPitch, c.height, 0x1_0000, 0x4000);
    FieldReadsBack(r.copyDestInfo, c.destFormat, 0x80, 0x40);
    FieldReadsBack(r.colorInfo, c.colorBases[0], 1, 0x1000);
    FieldReadsBack(r.colorInfo1, c.colorBases[1], 1, 0x1000);
    FieldReadsBack(r.colorInfo2, c.colorBases[2], 1, 0x1000);
    FieldReadsBack(r.colorInfo3, c.colorBases[3], 1, 0x1000);
    FieldReadsBack(r.depthInfo, c.depthBase, 1, 0x1000);
    FieldReadsBack(r.depthInfo, if c.depthIsFloat then 1 else 0, 0x1_0000, 2);
  }

  lemma {:induction false} ReadsAsMeant(r: Registers, c: Meaning)
    requires |c.colorBases| == 4 && Reads(r, c) && 0x1000 * c.page <= r.copyDestBase < 0x1000 * c.page + 0x1000
    ensures Copies(Some(r)) && (CopiesDepth(Some(r)) <==> c.select >= 4)
    ensures DestBase(r) == 0x1000 * c.page
    ensures Made(if c.select >= 4 then DepthRequest(r) else ColorRequest(r)) == TextureFor(c)
    ensures c.select < 4 ==> SurfaceBase(CopiedColorInfo(r)) == c.colorBases[c.select]
  {}

  lemma {:induction false} RequestIsMeant(r: Registers, c: Meaning)
    requires Means(r, c)
    ensures Copies(Some(r)) && (CopiesDepth(Some(r)) <==> c.select >= 4)
    ensures DestBase(r) == 0x1000 * c.page
    ensures Made(if c.select >= 4 then DepthRequest(r) else ColorRequest(r)) == TextureFor(c)
    ensures c.select < 4 ==> SurfaceBase(CopiedColorInfo(r)) == c.colorBases[c.select]
  {
    MeantReads(r, c);
    ReadsAsMeant(r, c);
  }

  /** A texture that a copy of the list makes: its destination, source, size and format are the copy's. */
  ghost predicate MadeByCopy(draws: seq<Draw>, meanings: seq<Meaning>, made: Texture)
    requires |meanings| == |draws|
  {
    exists i :: 0 <= i < |draws| && Copies(draws[i]) && |meanings[i].colorBases| == 4 && made == TextureFor(meanings[i])
  }

  ghost predicate AllMeant(draws: seq<Draw>, meanings: seq<Meaning>) {
    && |meanings| == |draws|
    && forall i :: 0 <= i < |draws| && Copies(draws[i]) && DestBase(draws[i].value) != 0 ==>
         Means(draws[i].value, meanings[i])
  }

  lemma {:induction false} DrawMakesItsTexture(p: Plan, d: Draw, c: Meaning, formats: Formats, driver: Driver, k: nat)
    requires Copies(d) && DestBase(d.value) != 0 ==> Means(d.value, c)
    requires k in AfterDraw(p, d, formats, driver).cache.textures
    ensures || (k in p.cache.textures && AfterDraw(p, d, formats, driver).cache.textures[k] == p.cache.textures[k])
            || (Copies(d) && |c.colorBases| == 4 && AfterDraw(p, d, formats, driver).cache.textures[k] == TextureFor(c))
  {
    if Copies(d) && DestBase(d.value) != 0 {
      RequestIsMeant(d.value, c);
    }
  }

  /**
   * Over any frame: every texture a plan adds has exactly the destination, source, pitch, height and format of
   * one of its copies, and every texture it found is as it was.
   */
  lemma {:induction false} TexturesAreTheirCopies(cache: Cache, draws: seq<Draw>, meanings: seq<Meaning>, formats: Formats,
                                                  driver: Driver, k: nat)
    requires AllMeant(draws, meanings)
    requires k in AfterDraws(NoPlan(cache), draws, formats, driver).cache.textures
    ensures var made := AfterDraws(NoPlan(cache), draws, formats, driver).cache.textures[k];
            if k in cache.textures then made == cache.textures[k] else MadeByCopy(draws, meanings, made)
    decreases |draws|
  {
    if draws != [] {
      var n := |draws| - 1;
      var before, front := AfterDraws(NoPlan(cache), draws[..n], formats, driver), meanings[..n];
      DrawMakesItsTexture(before, draws[n], meanings[n], formats, driver, k);
      var made := AfterDraw(before, draws[n], formats, driver).cache.textures[k];
      if k in before.cache.textures {
        TexturesAreTheirCopies(cache, draws[..n], front, formats, driver, k);
        TextureStays(before, draws[n], formats, driver, k);
        if k !in cache.textures {
          var i :| 0 <= i < n && Copies(draws[..n][i]) && |front[i].colorBases| == 4 && made == TextureFor(front[i]);
          assert draws[i] == draws[..n][i] && meanings[i] == front[i];
        }
      } else {
        assert made == TextureFor(meanings[n]);
        assert k !in cache.textures by { TexturesStay(cache, draws[..n], formats, driver, k); }
      }
    }
  }

  lemma {:induction false} TextureStays(p: Plan, d: Draw, formats: Formats, driver: Driver, k: nat)
    requires k in p.cache.textures
    ensures k in AfterDraw(p, d, formats, driver).cache.textures
    ensures AfterDraw(p, d, formats, driver).cache.textures[k] == p.cache.textures[k]
  {}

  lemma {:induction false} TexturesStay(cache: Cache, draws: seq<Draw>, formats: Formats, driver: Driver, k: nat)
    ensures k in cache.textures ==> k in AfterDraws(NoPlan(cache), draws, formats, driver).cache.textures
    decreases |draws|
  {
    if draws != [] && k in cache.textures {
      TexturesStay(cache, draws[..|draws| - 1], formats, driver, k);
      TextureStays(AfterDraws(NoPlan(cache), draws[..|draws| - 1], formats, driver), draws[|draws| - 1], formats, driver, k);
    }
  }

  /** A draw renders in the base and format of its colour register when its mode is colour and depth, or depth alone. */
  lemma {:induction false} RendersAsMeant(r: Registers, mode: nat, surface: nat, surfaceFormat: nat, base: nat, format: nat)
    requires Holding(r.modeControl, mode, 1, 8)
    requires Holding(r.colorInfo, surface, 1, 0x1000) && Holding(r.colorInfo, surfaceFormat, 0x1_0000, 16)
    ensures RendersIn(Some(r), base, format) <==> (mode == 4 || mode == 5) && base == surface && format == surfaceFormat
    ensures !RendersIn(None, base, format)
  {
    FieldReadsBack(r.modeControl, mode, 1, 8);
    FieldReadsBack(r.colorInfo, surface, 1, 0x1000);
    FieldReadsBack(r.colorInfo, surfaceFormat, 0x1_0000, 16);
  }

  /** The colour copies with a destination whose source the frame does not render. */
  function CountUnmatched(draws: seq<Draw>, formats: Formats): nat
    decreases |draws|
  {
    if draws == [] then 0
    else
      var d := draws[|draws| - 1];
      CountUnmatched(draws[..|draws| - 1], formats)
      + if Copies(d) && !CopiesDepth(d) && DestBase(d.value) != 0 && SurfaceBase(CopiedColorInfo(d.value)) !in formats then 1 else 0
  }

  lemma {:induction false} UnmatchedAreCounted(cache: Cache, draws: seq<Draw>, formats: Formats, driver: Driver)
    ensures AfterDraws(NoPlan(cache), draws, formats, driver).unmatched == CountUnmatched(draws, formats)
    decreases |draws|
  {
    if draws != [] {
      UnmatchedAreCounted(cache, draws[..|draws| - 1], formats, driver);
    }
  }

  // ---------------------------------------------------------------- what the plan promises

  function CountDepth(draws: seq<Draw>): nat
    decreases |draws|
  {
    if draws == [] then 0
    else CountDepth(draws[..|draws| - 1]) + if CopiesDepth(draws[|draws| - 1]) then 1 else 0
  }

  /** Every route of the plan reaches its own destination, and ends in a texture the plan names. */
  ghost predicate Planned(p: Plan) {
    && Keyed(p.cache.textures)
    && (forall dest :: dest in p.routing ==>
          Reaches(p.cache.textures, p.routing[dest], dest) && p.routing[dest].texture in p.dests)
    && (forall base :: base in p.dests ==> base in p.cache.textures)
    && p.depthRouted <= p.drawCount
  }

  lemma {:induction false} RoutedStaysPlanned(p: Plan, q: Request, driver: Driver)
    requires Planned(p) && AfterRequest(p.cache, q, driver).1.Some?
    ensures Planned(Routed(p.(cache := AfterRequest(p.cache, q, driver).0), q.dest,
                           AfterRequest(p.cache, q, driver).1.value))
  {
    RequestReaches(p.cache, q, driver);
    var got := AfterRequest(p.cache, q, driver);
    assert Grown(p.cache.textures, got.0.textures);
  }

  lemma {:induction false} MissStaysPlanned(p: Plan, q: Request, driver: Driver)
    requires Planned(p) && AfterRequest(p.cache, q, driver).1.None?
    ensures Planned(p.(cache := AfterRequest(p.cache, q, driver).0))
  {}

  /**
   * Over any frame: every route reaches its destination in the cache the plan leaves, and every
   * depth copy is counted exactly once as routed or not.
   */
  lemma {:induction false} PlanHolds(cache: Cache, draws: seq<Draw>, formats: Formats, driver: Driver)
    requires Keyed(cache.textures)
    ensures Planned(AfterDraws(NoPlan(cache), draws, formats, driver))
    ensures var p := AfterDraws(NoPlan(cache), draws, formats, driver);
            p.depthRouted + p.depthUnrouted == CountDepth(draws)
    decreases |draws|
  {
    if draws != [] {
      var n := |draws| - 1;
      PlanHolds(cache, draws[..n], formats, driver);
      DrawStaysPlanned(AfterDraws(NoPlan(cache), draws[..n], formats, driver), draws[n], formats, driver);
    }
  }

  lemma {:induction false} DrawStaysPlanned(p: Plan, d: Draw, formats: Formats, driver: Driver)
    requires Planned(p)
    ensures Planned(AfterDraw(p, d, formats, driver))
    ensures AfterDraw(p, d, formats, driver).depthRouted + AfterDraw(p, d, formats, driver).depthUnrouted
         == p.depthRouted + p.depthUnrouted + if CopiesDepth(d) then 1 else 0
  {
    if Copies(d) && DestBase(d.value) != 0 {
      var q := if CopiesDepth(d) then DepthRequest(d.value) else ColorRequest(d.value);
      if AfterRequest(p.cache, q, driver).1.Some? {
        RoutedStaysPlanned(p, q, driver);
      } else {
        MissStaysPlanned(p, q, driver);
      }
    }
  }

  /** Two destinations of a plan are never routed to the same row of the same texture. */
  lemma {:induction false} PlannedRoutesDiffer(p: Plan, one: nat, other: nat)
    requires Planned(p) && one in p.routing && other in p.routing
    ensures one != other ==> p.routing[one] != p.routing[other]
  {}

  /** The copy names a destination, and a source that exists: the depth buffer, or a base the frame renders. */
  predicate Servable(d: Draw, formats: Formats) {
    && Copies(d) && DestBase(d.value) != 0
    && (CopiesDepth(d) || SurfaceBase(CopiedColorInfo(d.value)) in formats)
  }

  function CountServable(draws: seq<Draw>, formats: Formats): nat
    decreases |draws|
  {
    if draws == [] then 0
    else CountServable(draws[..|draws| - 1], formats) + if Servable(draws[|draws| - 1], formats) then 1 else 0
  }

  /** Destinations asked for so far, and nothing else, are routed; none is lost along the way. */
  ghost predicate RoutesExactly(p: Plan, draws: seq<Draw>, n: nat, formats: Formats)
    requires n <= |draws|
  {
    forall dest :: dest in p.routing <==>
      exists i :: 0 <= i < n && Servable(draws[i], formats) && DestBase(draws[i].value) == dest
  }

  lemma {:induction false} DriverServes(c: Cache, q: Request, driver: Driver)
    requires driver(c.attempts)
    ensures AfterRequest(c, q, driver).1.Some?
  {}

  lemma {:induction false} ServedDraw(p: Plan, d: Draw, formats: Formats, driver: Driver)
    requires driver(p.cache.attempts)
    ensures var next := AfterDraw(p, d, formats, driver);
            && next.routing.Keys == p.routing.Keys + (if Servable(d, formats) then {DestBase(d.value)} else {})
            && next.drawCount == p.drawCount + if Servable(d, formats) then 1 else 0
  {
    if Servable(d, formats) {
      DriverServes(p.cache, if CopiesDepth(d) then DepthRequest(d.value) else ColorRequest(d.value), driver);
    }
  }

  /**
   * When every image can be made: a destination is routed if and only if some servable copy of the
   * frame names it, and the count of dispatches is the count of servable copies.
   */
  lemma {:induction false} PlanServesEveryCopy(cache: Cache, draws: seq<Draw>, n: nat, formats: Formats, driver: Driver)
    requires n <= |draws| && forall k :: driver(k)
    ensures var p := AfterDraws(NoPlan(cache), draws[..n], formats, driver);
            RoutesExactly(p, draws, n, formats) && p.drawCount == CountServable(draws[..n], formats)
  {
    if n > 0 {
      PlanServesEveryCopy(cache, draws, n - 1, formats, driver);
      assert draws[..n][..n - 1] == draws[..n - 1];
      var before := AfterDraws(NoPlan(cache), draws[..n - 1], formats, driver);
      ServedDraw(before, draws[n - 1], formats, driver);
      RoutesOneMore(before, AfterDraws(NoPlan(cache), draws[..n], formats, driver), draws, n - 1, formats);
    }
  }

  lemma {:induction false} RoutesOneMore(p: Plan, next: Plan, draws: seq<Draw>, n: nat, formats: Formats)
    requires n < |draws| && RoutesExactly(p, draws, n, formats)
    requires next.routing.Keys ==
               p.routing.Keys + if Servable(draws[n], formats) then {DestBase(draws[n].value)} else {}
    ensures RoutesExactly(next, draws, n + 1, formats)
  {
    forall dest
      ensures dest in next.routing <==>
                exists i :: 0 <= i < n + 1 && Servable(draws[i], formats) && DestBase(draws[i].value) == dest
    {
      assert dest in next.routing <==> dest in next.routing.Keys;
      assert dest in p.routing <==> dest in p.routing.Keys;
      if exists i :: 0 <= i < n + 1 && Servable(draws[i], formats) && DestBase(draws[i].value) == dest {
        var i :| 0 <= i < n + 1 && Servable(draws[i], formats) && DestBase(draws[i].value) == dest;
      }
    }
  }

  /**
   * The whole plan: formatsPerBase is exactly what the frame renders, every route reaches its
   * destination in a texture the plan names, and every depth copy is counted once.
   */
  method PlanResolves(draws: seq<Draw>, targets: ResolveTargets) returns (formatsPerBase: Formats, p: Plan)
    requires Keyed(targets.textures)
    modifies targets
    ensures forall base, format ::
              format in FormatsOf(formatsPerBase, base) <==> RenderedIn(draws, base, format)
    ensures Planned(p) && p.cache == targets.State()
    ensures p == AfterDraws(NoPlan(old(targets.State())), draws, formatsPerBase, targets.driver)
    ensures p.depthRouted + p.depthUnrouted == CountDepth(draws)
  {
    formatsPerBase := PlanFormats(draws);
    p := PlanRoutes(draws, formatsPerBase, targets);
    PlanHolds(old(targets.State()), draws, formatsPerBase, targets.driver);
  }
}
