/**
 * Where a resolve writes: which destination texture, and how many rows into it. A destination whose
 * base lies a whole number of rows inside a texture of the same pitch and pixel size is a region
 * of that texture.
 */
module ResolveRouting {

  import opened Wrappers

  function ColorFormatBytesPerPixel(format: nat): nat {
    match format
    case 2 | 8 | 9 => 1
    case 3 | 4 | 5 | 10 | 15 | 24 | 27 | 30 => 2
    case 6 | 7 | 14 | 16 | 17 | 22 | 23 | 25 | 28 | 31 | 36 => 4
    case 26 | 29 | 32 | 37 | 50 | 54 | 55 | 56 => 8
    case 38 => 16
    case _ => 0
  }

  datatype Texture = Texture(base: nat, sourceBase: nat, pitch: nat, height: nat, bpp: nat,
                             guestFormat: nat, isDepth: bool)

  datatype Request = Request(dest: nat, sourceBase: nat, pitch: nat, height: nat, format: nat, isDepth: bool)
  {
    function Bpp(): nat { ColorFormatBytesPerPixel(format) }
  }

  /** The texture a destination was routed to, and the row of it the destination starts at. */
  datatype Route = Route(texture: nat, row: nat)

  type Textures = map<nat, Texture>

  ghost predicate Keyed(textures: Textures) {
    forall k :: k in textures ==> textures[k].base == k
  }

  function RowBytes(t: Texture): nat {
    t.pitch * t.bpp
  }

  /** The destination starts on a later row of the texture. */
  predicate Holds(t: Texture, dest: nat, pitch: nat, bpp: nat) {
    && t.pitch == pitch && t.bpp == bpp && t.base < dest
    && RowBytes(t) != 0
    && (dest - t.base) % RowBytes(t) == 0
    && (dest - t.base) / RowBytes(t) < t.height
  }

  ghost predicate IsLeast(k: nat, keys: set<nat>) {
    k in keys && forall j :: j in keys ==> k <= j
  }

  lemma {:induction false} LeastExists(keys: set<nat>)
    requires keys != {}
    ensures exists k :: IsLeast(k, keys)
    decreases |keys|
  {
    var some :| some in keys;
    var rest := keys - {some};
    if rest == {} {
      assert forall j :: j in keys ==> j == some || j in rest;
      assert IsLeast(some, keys);
    } else {
      LeastExists(rest);
      var k :| IsLeast(k, rest);
      LeastOfMore(k, rest, some, keys);
    }
  }

  lemma {:induction false} LeastOfMore(k: nat, rest: set<nat>, some: nat, keys: set<nat>)
    requires IsLeast(k, rest) && some in keys && rest == keys - {some}
    ensures IsLeast(if some <= k then some else k, keys)
  {
    assert forall j :: j in keys ==> j == some || j in rest;
  }

  /** The key an ordered map visits first. */
  ghost function Least(keys: set<nat>): (k: nat)
    requires keys != {}
    ensures k in keys && forall j :: j in keys ==> k <= j
  {
    LeastExists(keys);
    var k :| IsLeast(k, keys);
    k
  }

  function Holders(textures: Textures, dest: nat, pitch: nat, bpp: nat): set<nat> {
    set k | k in textures && Holds(textures[k], dest, pitch, bpp)
  }

  /** The lowest texture that holds the destination, unless the pixel size or the pitch is unknown. */
  ghost function Containing(textures: Textures, dest: nat, pitch: nat, bpp: nat): Option<Route> {
    if bpp == 0 || pitch == 0 || Holders(textures, dest, pitch, bpp) == {} then None
    else
      var k := Least(Holders(textures, dest, pitch, bpp));
      Some(Route(k, (dest - textures[k].base) / RowBytes(textures[k])))
  }

  /** generation counts the lookups that missed, noFormat those of unknown pixel size. */
  datatype Cache = Cache(textures: Textures, generation: nat, noFormat: nat, attempts: nat)

  type Driver = nat -> bool

  function Made(q: Request): Texture {
    Texture(q.dest, q.sourceBase, q.pitch, q.height, q.Bpp(), q.format, q.isDepth)
  }

  /** One GetResolveTarget call. */
  ghost function AfterRequest(c: Cache, q: Request, driver: Driver): (Cache, Option<Route>) {
    if q.dest in c.textures then (c, Some(Route(c.textures[q.dest].base, 0)))
    else if Containing(c.textures, q.dest, q.pitch, q.Bpp()).Some? then
      (Cache(c.textures, c.generation + 1, c.noFormat, c.attempts), Containing(c.textures, q.dest, q.pitch, q.Bpp()))
    else
      var noFormat := if q.Bpp() == 0 then c.noFormat + 1 else c.noFormat;
      if driver(c.attempts) then
        (Cache(c.textures[q.dest := Made(q)], c.generation + 1, noFormat, c.attempts + 1), Some(Route(q.dest, 0)))
      else
        (Cache(c.textures, c.generation + 1, noFormat, c.attempts + 1), None)
  }

  class ResolveTargets {
    var textures: Textures
    var generation: nat
    var noFormat: nat
    var attempts: nat
    const driver: Driver

    constructor (kept: Cache, driver: Driver)
      ensures State() == kept && this.driver == driver
    {
      textures, generation, noFormat, attempts := kept.textures, kept.generation, kept.noFormat, kept.attempts;
      this.driver := driver;
    }

    ghost function State(): Cache
      reads this
    {
      Cache(textures, generation, noFormat, attempts)
    }

    /** The walk over the ordered map. */
    method FindContaining(dest: nat, pitch: nat, bpp: nat) returns (found: Option<Route>)
      requires bpp != 0 && pitch != 0
      ensures found == Containing(textures, dest, pitch, bpp)
    {
      // The map is walked in ascending order of its keys.
      var remaining := textures.Keys;
      while remaining != {}
        invariant remaining <= textures.Keys
        invariant forall k :: k in Holders(textures, dest, pitch, bpp) ==> k in remaining
        decreases |remaining|
      {
        LeastExists(remaining);
        var k :| k in remaining && forall j :: j in remaining ==> k <= j;
        var r := textures[k];
        remaining := remaining - {k};
        if r.pitch != pitch || r.bpp != bpp || dest <= r.base {
          continue;
        }
        var rowBytes := r.pitch * r.bpp;
        var delta := dest - r.base;
        if rowBytes != 0 && delta % rowBytes == 0 {
          var row := delta / rowBytes;
          if row < r.height {
            assert k in Holders(textures, dest, pitch, bpp);
            assert k == Least(Holders(textures, dest, pitch, bpp));
            return Some(Route(k, row));
          }
        }
      }
      assert Holders(textures, dest, pitch, bpp) == {};
      return None;
    }

    method GetResolveTarget(q: Request) returns (out: Option<Route>)
      modifies this
      ensures (State(), out) == AfterRequest(old(State()), q, driver)
    {
      if q.dest in textures {
        return Some(Route(textures[q.dest].base, 0));
      }
      generation := generation + 1;
      var bpp := q.Bpp();
      if bpp != 0 && q.pitch != 0 {
        var found := FindContaining(q.dest, q.pitch, bpp);
        if found.Some? {
          return found;
        }
      }
      if bpp == 0 {
        noFormat := noFormat + 1;
      }
      var made := driver(attempts);
      attempts := attempts + 1;
      if !made {
        return None;
      }
      textures := textures[q.dest := Made(q)];
      return Some(Route(q.dest, 0));
    }
  }

  // ---------------------------------------------------------------- what a route means

  /** The route leads to the destination: its texture's base plus whole rows is the destination. */
  predicate Reaches(textures: Textures, route: Route, dest: nat) {
    && route.texture in textures
    && textures[route.texture].base + route.row * RowBytes(textures[route.texture]) == dest
    && (route.row == 0 || route.row < textures[route.texture].height)
  }

  lemma {:induction false} WholeRows(delta: nat, rowBytes: nat)
    requires rowBytes != 0 && delta % rowBytes == 0
    ensures delta / rowBytes * rowBytes == delta
  {}

  lemma {:induction false} ZeroRows(pitch: nat, bpp: nat)
    ensures pitch * bpp != 0 <==> pitch != 0 && bpp != 0
  {}

  lemma {:induction false} RequestReaches(c: Cache, q: Request, driver: Driver)
    requires Keyed(c.textures)
    ensures Keyed(AfterRequest(c, q, driver).0.textures)
    ensures AfterRequest(c, q, driver).1.Some? ==>
              Reaches(AfterRequest(c, q, driver).0.textures, AfterRequest(c, q, driver).1.value, q.dest)
  {
    if q.dest !in c.textures && Containing(c.textures, q.dest, q.pitch, q.Bpp()).Some? {
      var k := Least(Holders(c.textures, q.dest, q.pitch, q.Bpp()));
      WholeRows(q.dest - c.textures[k].base, RowBytes(c.textures[k]));
    }
  }

  /** Textures are only ever added. */
  predicate Grown(was: Textures, now: Textures) {
    forall k :: k in was ==> k in now && now[k] == was[k]
  }

  // ---------------------------------------------------------------- runs

  datatype World = World(cache: Cache, answers: seq<Option<Route>>)

  ghost function AfterRequests(c: Cache, requests: seq<Request>, driver: Driver): World
    decreases |requests|
  {
    if requests == [] then World(c, [])
    else
      var before := AfterRequests(c, requests[..|requests| - 1], driver);
      var got := AfterRequest(before.cache, requests[|requests| - 1], driver);
      World(got.0, before.answers + [got.1])
  }

  /**
   * Over any run, every answer leads to its destination in the final cache, at row zero or at a row
   * below its texture's height.
   */
  lemma {:induction false} RoutesReach(c: Cache, requests: seq<Request>, driver: Driver)
    requires Keyed(c.textures)
    ensures var w := AfterRequests(c, requests, driver);
            && Keyed(w.cache.textures) && Grown(c.textures, w.cache.textures)
            && |w.answers| == |requests|
            && forall i :: 0 <= i < |requests| && w.answers[i].Some? ==>
                 Reaches(w.cache.textures, w.answers[i].value, requests[i].dest)
    decreases |requests|
  {
    if requests != [] {
      var n := |requests| - 1;
      RoutesReach(c, requests[..n], driver);
      var before := AfterRequests(c, requests[..n], driver);
      RequestReaches(before.cache, requests[n], driver);
      var w := AfterRequests(c, requests, driver);
      assert Grown(before.cache.textures, w.cache.textures);
      forall i | 0 <= i < |requests| && w.answers[i].Some?
        ensures Reaches(w.cache.textures, w.answers[i].value, requests[i].dest)
      {
        if i < n {
          assert Reaches(before.cache.textures, before.answers[i].value, requests[..n][i].dest);
        }
      }
    }
  }

  /** Two different destinations never start at the same row of one texture. */
  lemma {:induction false} RoutesNeverCollide(c: Cache, requests: seq<Request>, driver: Driver, i: nat, j: nat)
    requires Keyed(c.textures) && i < |requests| && j < |requests|
    requires |AfterRequests(c, requests, driver).answers| == |requests|
    requires AfterRequests(c, requests, driver).answers[i].Some?
    requires AfterRequests(c, requests, driver).answers[i] == AfterRequests(c, requests, driver).answers[j]
    ensures requests[i].dest == requests[j].dest
  {
    RoutesReach(c, requests, driver);
  }

  /**
   * No texture is made on a row of an older one: whatever a run adds lies on no row of a texture
   * of the same pitch and pixel size that was there before.
   */
  lemma {:induction false} NewTexturesStandApart(c: Cache, requests: seq<Request>, driver: Driver, x: nat, y: nat)
    requires Keyed(c.textures) && x in c.textures
    requires y in AfterRequests(c, requests, driver).cache.textures && y !in c.textures
    ensures var made := AfterRequests(c, requests, driver).cache.textures[y];
            !Holds(c.textures[x], y, made.pitch, made.bpp)
    decreases |requests|
  {
    if requests != [] {
      var n := |requests| - 1;
      RoutesReach(c, requests[..n], driver);
      var before := AfterRequests(c, requests[..n], driver).cache;
      assert before.textures[x] == c.textures[x];
      if y in before.textures {
        NewTexturesStandApart(c, requests[..n], driver, x, y);
      } else {
        var q := requests[n];
        assert y == q.dest && Made(q).bpp == q.Bpp();
        if Holds(c.textures[x], y, q.pitch, q.Bpp()) {
          assert x in Holders(before.textures, q.dest, q.pitch, q.Bpp());
          ZeroRows(q.pitch, q.Bpp());
          assert false;
        }
      }
    }
  }

  // ---------------------------------------------------------------- when a route moves

  lemma {:induction false} HoldersGrow(textures: Textures, made: Texture, dest: nat, pitch: nat, bpp: nat)
    requires made.base !in textures
    ensures Holders(textures[made.base := made], dest, pitch, bpp)
         == Holders(textures, dest, pitch, bpp) + if Holds(made, dest, pitch, bpp) then {made.base} else {}
  {}

  /** A texture added to a nonempty set of holders is the one routed to exactly when it is the lowest. */
  lemma {:induction false} ContainingMovesIff(textures: Textures, made: Texture, dest: nat, pitch: nat, bpp: nat)
    requires made.base !in textures && Containing(textures, dest, pitch, bpp).Some?
    ensures var was, now := Containing(textures, dest, pitch, bpp),
                            Containing(textures[made.base := made], dest, pitch, bpp);
            && now.Some?
            && now.value.texture == (if made.base < was.value.texture && Holds(made, dest, pitch, bpp)
                                     then made.base else was.value.texture)
            && (now.value.texture == was.value.texture ==> now == was)
  {
    HoldersGrow(textures, made, dest, pitch, bpp);
    var before := Holders(textures, dest, pitch, bpp);
    var after := Holders(textures[made.base := made], dest, pitch, bpp);
    var b, a := Least(before), Least(after);
    assert b in after;
    assert a == made.base || a in before;
  }

  /**
   * A destination routed into a texture keeps its route when a new texture appears, except exactly
   * when the new texture is its own or holds it from a lower base: then the route moves there.
   */
  lemma {:induction false} RouteMovesIff(c: Cache, q: Request, made: Texture, driver: Driver)
    requires q.dest !in c.textures && made.base !in c.textures
    requires Containing(c.textures, q.dest, q.pitch, q.Bpp()).Some?
    ensures var was := AfterRequest(c, q, driver).1;
            var now := AfterRequest(c.(textures := c.textures[made.base := made]), q, driver).1;
            && was.Some? && now.Some?
            && (now != was <==>
                  made.base == q.dest
                  || (made.base < was.value.texture && Holds(made, q.dest, q.pitch, q.Bpp())))
            && (now != was ==> now.value.texture == made.base)
  {
    ContainingMovesIff(c.textures, made, q.dest, q.pitch, q.Bpp());
    assert Containing(c.textures, q.dest, q.pitch, q.Bpp()).value.texture in c.textures;
  }

  predicate IsNewHolder(was: Textures, now: Textures, k: nat, dest: nat, pitch: nat, bpp: nat) {
    k in now && k !in was && Holds(now[k], dest, pitch, bpp)
  }

  lemma {:induction false} HoldersAfterGrowth(was: Textures, now: Textures, dest: nat, pitch: nat, bpp: nat, k: nat)
    requires Grown(was, now)
    ensures k in Holders(now, dest, pitch, bpp) <==>
              k in Holders(was, dest, pitch, bpp) || IsNewHolder(was, now, k, dest, pitch, bpp)
  {
    assert k in was ==> now[k] == was[k];
  }

  /** Over any growth of the cache, the lowest holder changes exactly when a lower one has been added. */
  lemma {:induction false} ContainingGrownIff(was: Textures, now: Textures, dest: nat, pitch: nat, bpp: nat)
    requires Grown(was, now) && Containing(was, dest, pitch, bpp).Some?
    ensures var route := Containing(was, dest, pitch, bpp).value;
            && Containing(now, dest, pitch, bpp).Some?
            && (Containing(now, dest, pitch, bpp).value != route
                <==> exists k: nat :: k < route.texture && IsNewHolder(was, now, k, dest, pitch, bpp))
  {
    var before, after := Holders(was, dest, pitch, bpp), Holders(now, dest, pitch, bpp);
    var b := Least(before);
    HoldersAfterGrowth(was, now, dest, pitch, bpp, b);
    var a := Least(after);
    HoldersAfterGrowth(was, now, dest, pitch, bpp, a);
    assert now[b] == was[b];
    if exists k: nat :: k < b && IsNewHolder(was, now, k, dest, pitch, bpp) {
      var k: nat :| k < b && IsNewHolder(was, now, k, dest, pitch, bpp);
      HoldersAfterGrowth(was, now, dest, pitch, bpp, k);
    }
  }

  /**
   * Over any requests in between, a routed destination gets another answer the second time if and only if
   * one of them made a texture at the destination itself, or one that holds it from a lower base.
   */
  lemma {:induction false} RouteMovesOverRunIff(c: Cache, requests: seq<Request>, q: Request, driver: Driver)
    requires Keyed(c.textures) && q.dest !in c.textures
    requires Containing(c.textures, q.dest, q.pitch, q.Bpp()).Some?
    ensures var c' := AfterRequests(c, requests, driver).cache;
            var was, now := AfterRequest(c, q, driver).1, AfterRequest(c', q, driver).1;
            && was.Some? && now.Some?
            && (now != was <==>
                  || q.dest in c'.textures
                  || exists k: nat :: k < was.value.texture
                                 && IsNewHolder(c.textures, c'.textures, k, q.dest, q.pitch, q.Bpp()))
  {
    var c' := AfterRequests(c, requests, driver).cache;
    RoutesReach(c, requests, driver);
    ContainingGrownIff(c.textures, c'.textures, q.dest, q.pitch, q.Bpp());
    var route := Containing(c.textures, q.dest, q.pitch, q.Bpp()).value;
    assert route.texture in Holders(c.textures, q.dest, q.pitch, q.Bpp());
  }

  lemma {:induction false} HoldsAtRow(t: Texture, row: nat)
    requires RowBytes(t) != 0 && 0 < row < t.height
    ensures Holds(t, t.base + row * RowBytes(t), t.pitch, t.bpp)
    ensures row * RowBytes(t) / RowBytes(t) == row
  {
    QuotientUnique(row * RowBytes(t), RowBytes(t), row);
  }

  lemma {:induction false} StepsOfAtLeast(gap: int, d: int)
    requires d > 0
    ensures gap >= 1 ==> gap * d >= d
    ensures gap <= -1 ==> gap * d <= -d
  {}

  lemma {:induction false} QuotientUnique(n: nat, d: nat, q: nat)
    requires d != 0 && n == q * d
    ensures n / d == q && n % d == 0
  {
    var p, r := n / d, n % d;
    assert n == p * d + r;
    assert (q - p) * d == r;
    StepsOfAtLeast(q - p, d);
  }

  /**
   * Such a move can happen: every texture with a second row gives that row up to a texture of the
   * same shape made one row below it with a third.
   */
  lemma {:induction false} LowerTextureTakesOver(upper: Texture, lower: Texture, q: Request, driver: Driver)
    requires RowBytes(upper) != 0 && upper.height >= 2 && lower.height >= 3
    requires lower.pitch == upper.pitch == q.pitch && lower.bpp == upper.bpp == q.Bpp()
    requires lower.base + RowBytes(lower) == upper.base && q.dest == upper.base + RowBytes(upper)
    ensures var alone := Cache(map[upper.base := upper], 0, 0, 0);
            && AfterRequest(alone, q, driver).1 == Some(Route(upper.base, 1))
            && AfterRequest(alone.(textures := alone.textures[lower.base := lower]), q, driver).1
                 == Some(Route(lower.base, 2))
  {
    var textures := map[upper.base := upper];
    HoldsAtRow(upper, 1);
    HoldsAtRow(lower, 2);
    ZeroRows(q.pitch, q.Bpp());
    assert Holders(textures, q.dest, q.pitch, q.Bpp()) == {upper.base};
    assert Containing(textures, q.dest, q.pitch, q.Bpp()) == Some(Route(upper.base, 1));
    ContainingMovesIff(textures, lower, q.dest, q.pitch, q.Bpp());
    assert textures[lower.base := lower][lower.base] == lower;
    RouteMovesIff(Cache(textures, 0, 0, 0), q, lower, driver);
  }
}
