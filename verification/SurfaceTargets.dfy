/**
 * The colour half of the render-target cache: one persistent host image per EDRAM base and sample
 * view, promoted when a frame needs a wider format, behind a lookup that lasts one frame.
 */
module SurfaceTargets {

  import opened Wrappers

  // ---------------------------------------------------------------- host formats

  datatype HostFormat =
    | Undefined
    | R8G8B8A8Unorm
    | A2B10G10R10Unorm
    | R16G16Snorm
    | R16G16B16A16Snorm
    | R16G16Sfloat
    | R16G16B16A16Sfloat
    | R32Sfloat
    | R32G32Sfloat

  function HostColorFormat(colorFormat: nat): HostFormat {
    match colorFormat
    case 0 | 1 => R8G8B8A8Unorm
    case 2 | 10 => A2B10G10R10Unorm
    case 3 | 12 => R16G16B16A16Sfloat
    case 4 => R16G16Snorm
    case 5 => R16G16B16A16Snorm
    case 6 => R16G16Sfloat
    case 7 => R16G16B16A16Sfloat
    case 14 => R32Sfloat
    case 15 => R32G32Sfloat
    case _ => Undefined
  }

  predicate HasWide(formats: set<nat>) {
    14 in formats || 15 in formats
  }

  predicate IsSingle(formats: set<nat>) {
    exists f :: f in formats && formats == {f}
  }

  lemma {:induction false} SingleIsSizeOne(formats: set<nat>)
    ensures IsSingle(formats) <==> |formats| == 1
  {
    if |formats| == 1 {
      var f :| f in formats;
      assert |formats - {f}| == 0;
      assert formats == {f};
    }
  }

  function HostFormatFor(formats: set<nat>): HostFormat {
    if formats == {} then Undefined
    else if IsSingle(formats) then
      var f :| f in formats && formats == {f};
      HostColorFormat(f)
    else if HasWide(formats) then R32G32Sfloat
    else R16G16B16A16Sfloat
  }

  // ---------------------------------------------------------------- the frame's lookup

  /** A base, in the single-sample or the native multisample view. */
  datatype Key = Key(base: nat, nativeMultisample: bool)

  const BaseCount: nat := 0x1000

  function Slot(key: Key): nat
    requires key.base < BaseCount
  {
    key.base + if key.nativeMultisample then BaseCount else 0
  }

  type Entries = e: seq<Option<nat>> | |e| == 2 * BaseCount
    witness seq<Option<nat>>(2 * BaseCount, _ => None)

  function NoEntries(): Entries {
    seq<Option<nat>>(2 * BaseCount, _ => None)
  }

  function Found(entries: Entries, key: Key): Option<nat> {
    if key.base >= BaseCount then None else entries[Slot(key)]
  }

  function Remembered(entries: Entries, key: Key, target: nat): Entries {
    if key.base < BaseCount then entries[Slot(key) := Some(target)] else entries
  }

  /** Two views of any two bases never share a slot, and a base past the table is never remembered. */
  lemma {:induction false} RememberedIsFound(entries: Entries, key: Key, target: nat, other: Key)
    ensures Found(Remembered(entries, key, target), other)
         == if other == key && key.base < 0x1000 then Some(target) else Found(entries, other)
  {}

  class FrameSurfaceTargetLookup {
    const entries: array<Option<nat>>

    ghost predicate Valid()
      reads this, entries
    {
      entries.Length == 2 * BaseCount
    }

    ghost function Contents(): Entries
      reads this, entries
      requires Valid()
    {
      entries[..]
    }

    constructor ()
      ensures Valid() && fresh(entries) && Contents() == NoEntries()
    {
      entries := new Option<nat>[2 * BaseCount](_ => None);
      new;
      assert entries[..] == NoEntries();
    }

    method Find(key: Key) returns (target: Option<nat>)
      requires Valid()
      ensures target == Found(Contents(), key)
    {
      if key.base >= BaseCount {
        return None;
      }
      return entries[key.base + if key.nativeMultisample then BaseCount else 0];
    }

    method Remember(key: Key, target: nat)
      requires Valid()
      modifies entries
      ensures Valid() && Contents() == Remembered(old(Contents()), key, target)
    {
      if key.base < BaseCount {
        entries[key.base + if key.nativeMultisample then BaseCount else 0] := Some(target);
      }
    }
  }

  // ---------------------------------------------------------------- the cache on values

  /** A host image: its identity, every guest format it has been asked to hold, and its format. */
  datatype Target = Target(image: nat, guestFormats: set<nat>, hostFormat: HostFormat)

  /**
   * targets outlives the frame; lookup does not. attempts counts the driver calls that may fail,
   * images the host images ever made.
   */
  datatype Cache = Cache(targets: map<Key, Target>, lookup: Entries, attempts: nat, images: nat)

  /** Whether the n-th driver call of the run succeeds. */
  type Driver = nat -> bool

  /** What a frame fixes before its first draw: each base's formats, and whether the lookup is on. */
  datatype Plan = Plan(formatsPerBase: map<nat, set<nat>>, reuse: bool)

  function Serve(c: Cache, plan: Plan, key: Key, image: nat): Cache {
    if plan.reuse then c.(lookup := Remembered(c.lookup, key, image)) else c
  }

  function AfterCreate(c: Cache, plan: Plan, key: Key, required: set<nat>, driver: Driver): (Cache, Option<nat>) {
    var host := HostFormatFor(required);
    if host == Undefined then (c, None)
    else if !driver(c.attempts) then (c.(attempts := c.attempts + 1), None)
    else
      var made := Target(c.images, required, host);
      var grown := c.(targets := c.targets[key := made], attempts := c.attempts + 1, images := c.images + 1);
      (Serve(grown, plan, key, made.image), Some(made.image))
  }

  function AfterMeet(c: Cache, plan: Plan, key: Key, driver: Driver): (Cache, Option<nat>)
    requires key.base in plan.formatsPerBase && key in c.targets
  {
    var it := c.targets[key];
    var required := plan.formatsPerBase[key.base] + it.guestFormats;
    var host := HostFormatFor(required);
    if host == Undefined then (c, None)
    else if host == it.hostFormat then
      var kept := c.(targets := c.targets[key := it.(guestFormats := required)]);
      (Serve(kept, plan, key, it.image), Some(it.image))
    else if !driver(c.attempts) then (c.(attempts := c.attempts + 1), None)
    else AfterCreate(c.(targets := c.targets - {key}, attempts := c.attempts + 1), plan, key, required, driver)
  }

  /** One GetSurfaceTarget call: the new cache, and the image it names unless it fails. */
  function AfterGet(c: Cache, plan: Plan, key: Key, driver: Driver): (Cache, Option<nat>) {
    if plan.reuse && Found(c.lookup, key).Some? then (c, Found(c.lookup, key))
    else if key.base !in plan.formatsPerBase then (c, None)
    else if key in c.targets then AfterMeet(c, plan, key, driver)
    else AfterCreate(c, plan, key, plan.formatsPerBase[key.base], driver)
  }

  // ---------------------------------------------------------------- the cache as the program keeps it

  class RenderTargetCache {
    var targets: map<Key, Target>
    var attempts: nat
    var images: nat
    const plan: Plan
    const driver: Driver
    const frameSurfaceTargets: FrameSurfaceTargetLookup

    ghost predicate Valid()
      reads this, frameSurfaceTargets, frameSurfaceTargets.entries
    {
      frameSurfaceTargets.Valid()
    }

    ghost function State(): Cache
      reads this, frameSurfaceTargets, frameSurfaceTargets.entries
      requires Valid()
    {
      Cache(targets, frameSurfaceTargets.Contents(), attempts, images)
    }

    /** A new frame over the images the last one left. */
    constructor (kept: map<Key, Target>, attempts: nat, images: nat, plan: Plan, driver: Driver)
      ensures Valid() && fresh(frameSurfaceTargets) && fresh(frameSurfaceTargets.entries)
      ensures this.plan == plan && this.driver == driver
      ensures State() == Cache(kept, NoEntries(), attempts, images)
    {
      this.targets, this.attempts, this.images := kept, attempts, images;
      this.plan, this.driver := plan, driver;
      frameSurfaceTargets := new FrameSurfaceTargetLookup();
    }

    method GetSurfaceTarget(key: Key) returns (out: Option<nat>)
      requires Valid()
      modifies this, frameSurfaceTargets.entries
      ensures Valid()
      ensures (State(), out) == AfterGet(old(State()), plan, key, driver)
    {
      if plan.reuse {
        var cached := frameSurfaceTargets.Find(key);
        if cached.Some? {
          return cached;
        }
      }
      if key.base !in plan.formatsPerBase {
        return None;
      }
      var requiredFormats := plan.formatsPerBase[key.base];
      if key in targets {
        var it := targets[key];
        requiredFormats := requiredFormats + it.guestFormats;
        var requiredHostFormat := HostFormatFor(requiredFormats);
        if requiredHostFormat == Undefined {
          return None;
        }
        if requiredHostFormat == it.hostFormat {
          targets := targets[key := it.(guestFormats := requiredFormats)];
          if plan.reuse {
            frameSurfaceTargets.Remember(key, it.image);
          }
          return Some(it.image);
        }
        var idle := driver(attempts);
        attempts := attempts + 1;
        if !idle {
          return None;
        }
        targets := targets - {key};
      }
      var hostFormat := HostFormatFor(requiredFormats);
      if hostFormat == Undefined {
        return None;
      }
      var created := driver(attempts);
      attempts := attempts + 1;
      if !created {
        return None;
      }
      var s := Target(images, requiredFormats, hostFormat);
      images := images + 1;
      targets := targets[key := s];
      if plan.reuse {
        frameSurfaceTargets.Remember(key, s.image);
      }
      return Some(s.image);
    }
  }

  // ---------------------------------------------------------------- formats only widen

  /**
   * How many times an image holding these formats can still be promoted: every one-format container
   * may give way to a mixed one, and a mixed one without a 32-bit float format to the widest.
   */
  function Rank(formats: set<nat>): nat {
    if IsSingle(formats) then 2 else if !HasWide(formats) then 1 else 0
  }

  /** More formats never raise the rank, and a new host format always lowers it. */
  lemma {:induction false} WideningLowersRank(was: set<nat>, now: set<nat>)
    requires was != {} && was <= now
    ensures Rank(now) <= Rank(was)
    ensures HostFormatFor(now) != HostFormatFor(was) ==> Rank(now) < Rank(was)
  {
    if IsSingle(now) {
      var f :| f in now && now == {f};
      assert was == now;
    }
  }

  /** A target is in the container its own formats ask for. */
  predicate WellFormed(t: Target) {
    t.guestFormats != {} && t.hostFormat == HostFormatFor(t.guestFormats) && t.hostFormat != Undefined
  }

  ghost predicate AllWellFormed(c: Cache) {
    && (forall k :: k in c.targets ==> WellFormed(c.targets[k]) && c.targets[k].image < c.images)
    && (forall k, j :: k in c.targets && j in c.targets && c.targets[k].image == c.targets[j].image ==> k == j)
  }

  /**
   * What a target handed out in this frame is: live, in the format the frame's own set and its
   * history ask for, and holding every format the frame renders its base with.
   */
  predicate Settled(c: Cache, plan: Plan, key: Key) {
    && key.base in plan.formatsPerBase
    && key in c.targets
    && plan.formatsPerBase[key.base] <= c.targets[key].guestFormats
    && WellFormed(c.targets[key])
  }

  /** Every remembered target is live and settled. */
  ghost predicate LookupSettled(c: Cache, plan: Plan) {
    forall k: Key :: Found(c.lookup, k).Some? ==>
      Settled(c, plan, k) && Found(c.lookup, k) == Some(c.targets[k].image)
  }

  ghost predicate Sound(c: Cache, plan: Plan) {
    && AllWellFormed(c)
    && LookupSettled(c, plan)
    && (!plan.reuse ==> c.lookup == NoEntries())
  }

  lemma {:induction false} ServeKeepsSound(c: Cache, plan: Plan, key: Key)
    requires Sound(c, plan) && Settled(c, plan, key)
    ensures Sound(Serve(c, plan, key, c.targets[key].image), plan)
  {
    var d := Serve(c, plan, key, c.targets[key].image);
    forall k: Key | Found(d.lookup, k).Some?
      ensures Settled(d, plan, k) && Found(d.lookup, k) == Some(d.targets[k].image)
    {
      RememberedIsFound(c.lookup, key, c.targets[key].image, k);
    }
  }

  /** A sound cache, and an answer that names the live, settled target if it names any. */
  ghost predicate SoundAnswer(got: (Cache, Option<nat>), plan: Plan, key: Key) {
    && Sound(got.0, plan)
    && (got.1.Some? ==> Settled(got.0, plan, key) && got.1 == Some(got.0.targets[key].image))
  }

  lemma {:induction false} CreateKeepsSound(c: Cache, plan: Plan, key: Key, required: set<nat>, driver: Driver)
    requires Sound(c, plan) && key !in c.targets
    requires key.base in plan.formatsPerBase && plan.formatsPerBase[key.base] <= required
    ensures SoundAnswer(AfterCreate(c, plan, key, required, driver), plan, key)
  {
    var host := HostFormatFor(required);
    if host != Undefined && driver(c.attempts) {
      var made := Target(c.images, required, host);
      var grown := c.(targets := c.targets[key := made], attempts := c.attempts + 1, images := c.images + 1);
      assert WellFormed(made);
      assert Sound(grown, plan);
      ServeKeepsSound(grown, plan, key);
    }
  }

  lemma {:induction false} KeepKeepsSound(c: Cache, plan: Plan, key: Key, required: set<nat>)
    requires Sound(c, plan) && key in c.targets && key.base in plan.formatsPerBase
    requires required == plan.formatsPerBase[key.base] + c.targets[key].guestFormats
    requires HostFormatFor(required) == c.targets[key].hostFormat
    ensures Sound(c.(targets := c.targets[key := c.targets[key].(guestFormats := required)]), plan)
  {
    var d := c.(targets := c.targets[key := c.targets[key].(guestFormats := required)]);
    assert WellFormed(d.targets[key]);
  }

  lemma {:induction false} KeepServes(c: Cache, plan: Plan, key: Key, required: set<nat>, driver: Driver)
    requires Sound(c, plan) && key in c.targets && key.base in plan.formatsPerBase
    requires required == plan.formatsPerBase[key.base] + c.targets[key].guestFormats
    requires HostFormatFor(required) == c.targets[key].hostFormat
    ensures SoundAnswer(AfterMeet(c, plan, key, driver), plan, key)
  {
    KeepKeepsSound(c, plan, key, required);
    ServeKeepsSound(c.(targets := c.targets[key := c.targets[key].(guestFormats := required)]), plan, key);
  }

  lemma {:induction false} AttemptKeepsSound(c: Cache, plan: Plan)
    requires Sound(c, plan)
    ensures Sound(c.(attempts := c.attempts + 1), plan)
  {}

  lemma {:induction false} ReleaseKeepsSound(c: Cache, plan: Plan, key: Key)
    requires Sound(c, plan) && Found(c.lookup, key).None?
    ensures Sound(c.(targets := c.targets - {key}, attempts := c.attempts + 1), plan)
  {}

  lemma {:induction false} PromoteKeepsSound(c: Cache, plan: Plan, key: Key, required: set<nat>, driver: Driver)
    requires Sound(c, plan) && Found(c.lookup, key).None?
    requires key.base in plan.formatsPerBase && plan.formatsPerBase[key.base] <= required
    ensures var released := c.(targets := c.targets - {key}, attempts := c.attempts + 1);
            SoundAnswer(AfterCreate(released, plan, key, required, driver), plan, key)
  {
    ReleaseKeepsSound(c, plan, key);
    CreateKeepsSound(c.(targets := c.targets - {key}, attempts := c.attempts + 1), plan, key, required, driver);
  }

  lemma {:induction false} MeetKeepsSound(c: Cache, plan: Plan, key: Key, driver: Driver)
    requires Sound(c, plan) && Found(c.lookup, key).None?
    requires key.base in plan.formatsPerBase && key in c.targets
    ensures SoundAnswer(AfterMeet(c, plan, key, driver), plan, key)
  {
    var it := c.targets[key];
    var required := plan.formatsPerBase[key.base] + it.guestFormats;
    var host := HostFormatFor(required);
    if host == it.hostFormat {
      KeepServes(c, plan, key, required, driver);
    } else if host == Undefined {
      assert AfterMeet(c, plan, key, driver) == (c, None);
    } else if !driver(c.attempts) {
      AttemptKeepsSound(c, plan);
      assert AfterMeet(c, plan, key, driver) == (c.(attempts := c.attempts + 1), None);
    } else {
      PromoteKeepsSound(c, plan, key, required, driver);
    }
  }

  lemma {:induction false} GetKeepsSound(c: Cache, plan: Plan, key: Key, driver: Driver)
    requires Sound(c, plan)
    ensures SoundAnswer(AfterGet(c, plan, key, driver), plan, key)
  {
    if Found(c.lookup, key).None? && key.base in plan.formatsPerBase {
      if key in c.targets {
        MeetKeepsSound(c, plan, key, driver);
      } else {
        CreateKeepsSound(c, plan, key, plan.formatsPerBase[key.base], driver);
      }
    }
  }

  // ---------------------------------------------------------------- runs

  datatype Event =
    | NewFrame(formatsPerBase: map<nat, set<nat>>)
    | Get(key: Key)

  datatype World = World(cache: Cache, plan: Plan, answers: seq<Option<nat>>)

  function Start(reuse: bool): World {
    World(Cache(map[], NoEntries(), 0, 0), Plan(map[], reuse), [])
  }

  function AfterEvent(w: World, e: Event, driver: Driver): World {
    match e
    case NewFrame(formatsPerBase) =>
      World(Cache(w.cache.targets, NoEntries(), w.cache.attempts, w.cache.images),
            Plan(formatsPerBase, w.plan.reuse), w.answers)
    case Get(key) =>
      var got := AfterGet(w.cache, w.plan, key, driver);
      World(got.0, w.plan, w.answers + [got.1])
  }

  function AfterEvents(w: World, events: seq<Event>, driver: Driver): World
    decreases |events|
  {
    if events == [] then w else AfterEvents(AfterEvent(w, events[0], driver), events[1..], driver)
  }

  lemma {:induction false} EventKeepsSound(w: World, e: Event, driver: Driver)
    requires Sound(w.cache, w.plan)
    ensures Sound(AfterEvent(w, e, driver).cache, AfterEvent(w, e, driver).plan)
  {
    if e.Get? {
      GetKeepsSound(w.cache, w.plan, e.key, driver);
    }
  }

  predicate SameCache(a: Cache, b: Cache) {
    a.targets == b.targets && a.attempts == b.attempts && a.images == b.images
  }

  /** Two runs that differ at most in what the frame's lookup remembers. */
  predicate SameButLookup(a: World, b: World) {
    && SameCache(a.cache, b.cache)
    && a.plan.formatsPerBase == b.plan.formatsPerBase
    && a.answers == b.answers
  }

  lemma {:induction false} SettledIsServed(c: Cache, plan: Plan, key: Key, driver: Driver)
    requires Sound(c, plan) && Settled(c, plan, key)
    ensures AfterGet(c, plan, key, driver).1 == Some(c.targets[key].image)
    ensures AfterGet(c, plan, key, driver).0.targets == c.targets
    ensures AfterGet(c, plan, key, driver).0.attempts == c.attempts
    ensures AfterGet(c, plan, key, driver).0.images == c.images
  {
    var it := c.targets[key];
    assert plan.formatsPerBase[key.base] + it.guestFormats == it.guestFormats;
    assert it.(guestFormats := it.guestFormats) == it;
    assert c.targets[key := it] == c.targets;
  }

  /** Without a remembered target, the two ways of asking do the same. */
  lemma {:induction false} MissChangesNothing(fast: Cache, slow: Cache, on: Plan, off: Plan, key: Key, driver: Driver)
    requires on.reuse && !off.reuse && on.formatsPerBase == off.formatsPerBase
    requires SameCache(fast, slow) && Found(fast.lookup, key).None?
    ensures SameCache(AfterGet(fast, on, key, driver).0, AfterGet(slow, off, key, driver).0)
    ensures AfterGet(fast, on, key, driver).1 == AfterGet(slow, off, key, driver).1
  {}

  lemma {:induction false} LookupStepChangesNothing(fast: World, slow: World, e: Event, driver: Driver)
    requires Sound(fast.cache, fast.plan) && Sound(slow.cache, slow.plan)
    requires fast.plan.reuse && !slow.plan.reuse && SameButLookup(fast, slow)
    ensures SameButLookup(AfterEvent(fast, e, driver), AfterEvent(slow, e, driver))
  {
    if e.Get? {
      if Found(fast.cache.lookup, e.key).Some? {
        SettledIsServed(slow.cache, slow.plan, e.key, driver);
      } else {
        MissChangesNothing(fast.cache, slow.cache, fast.plan, slow.plan, e.key, driver);
      }
    }
  }

  lemma {:induction false} LookupChangesNothingFrom(fast: World, slow: World, events: seq<Event>, driver: Driver)
    requires Sound(fast.cache, fast.plan) && Sound(slow.cache, slow.plan)
    requires fast.plan.reuse && !slow.plan.reuse && SameButLookup(fast, slow)
    ensures SameButLookup(AfterEvents(fast, events, driver), AfterEvents(slow, events, driver))
    decreases |events|
  {
    if events != [] {
      LookupStepChangesNothing(fast, slow, events[0], driver);
      EventKeepsSound(fast, events[0], driver);
      EventKeepsSound(slow, events[0], driver);
      LookupChangesNothingFrom(AfterEvent(fast, events[0], driver), AfterEvent(slow, events[0], driver),
                               events[1..], driver);
    }
  }

  /**
   * The frame's lookup is invisible: over any run of frames and requests, against any driver that
   * fails wherever it likes, it gives the same answers, makes and releases the same images and
   * calls the driver the same number of times as deciding each request anew.
   */
  lemma {:induction false} LookupChangesNothing(events: seq<Event>, driver: Driver)
    ensures SameButLookup(AfterEvents(Start(true), events, driver), AfterEvents(Start(false), events, driver))
  {
    LookupChangesNothingFrom(Start(true), Start(false), events, driver);
  }

  lemma {:induction false} OthersUntouched(c: Cache, plan: Plan, key: Key, other: Key, driver: Driver)
    requires other != key && other in c.targets
    ensures other in AfterGet(c, plan, key, driver).0.targets
    ensures AfterGet(c, plan, key, driver).0.targets[other] == c.targets[other]
  {}

  /**
   * No promotion follows the first answer of a frame: the image a frame has been handed for a base
   * is the one every later request of that frame gets, with the lookup on or off.
   */
  lemma {:induction false} AnsweredStaysAnswered(w: World, key: Key, events: seq<Event>, driver: Driver)
    requires Sound(w.cache, w.plan) && Settled(w.cache, w.plan, key)
    requires forall i :: 0 <= i < |events| ==> events[i].Get?
    ensures Settled(AfterEvents(w, events, driver).cache, w.plan, key)
    ensures AfterEvents(w, events, driver).cache.targets[key] == w.cache.targets[key]
    ensures AfterGet(AfterEvents(w, events, driver).cache, w.plan, key, driver).1 == Some(w.cache.targets[key].image)
    decreases |events|
  {
    if events == [] {
      SettledIsServed(w.cache, w.plan, key, driver);
    } else {
      EventKeepsSound(w, events[0], driver);
      if events[0].key == key {
        SettledIsServed(w.cache, w.plan, key, driver);
      } else {
        OthersUntouched(w.cache, w.plan, events[0].key, key, driver);
      }
      AnsweredStaysAnswered(AfterEvent(w, events[0], driver), key, events[1..], driver);
    }
  }

  // ---------------------------------------------------------------- how often an image is replaced

  /** An image was made for this base and view. */
  predicate Makes(w: World, e: Event, key: Key, driver: Driver) {
    e == Get(key) && AfterEvent(w, e, driver).cache.images > w.cache.images
  }

  /** A promotion released the old image and then could not make the new one. */
  predicate Loses(w: World, e: Event, key: Key, driver: Driver) {
    key in w.cache.targets && key !in AfterEvent(w, e, driver).cache.targets
  }

  function Made(w: World, events: seq<Event>, key: Key, driver: Driver): nat
    decreases |events|
  {
    if events == [] then 0
    else (if Makes(w, events[0], key, driver) then 1 else 0)
         + Made(AfterEvent(w, events[0], driver), events[1..], key, driver)
  }

  function Lost(w: World, events: seq<Event>, key: Key, driver: Driver): nat
    decreases |events|
  {
    if events == [] then 0
    else (if Loses(w, events[0], key, driver) then 1 else 0)
         + Lost(AfterEvent(w, events[0], driver), events[1..], key, driver)
  }

  /** How many more images a base and view can be given. */
  function Remaining(c: Cache, key: Key): nat {
    if key in c.targets then Rank(c.targets[key].guestFormats) else 3
  }

  lemma {:induction false} GetSpendsRemaining(w: World, e: Event, key: Key, driver: Driver)
    requires Sound(w.cache, w.plan) && e == Get(key)
    ensures (if Makes(w, e, key, driver) then 1 else 0) + Remaining(AfterEvent(w, e, driver).cache, key)
         <= Remaining(w.cache, key) + (if Loses(w, e, key, driver) then 3 else 0)
  {
    var c := w.cache;
    if Found(c.lookup, key).None? && key.base in w.plan.formatsPerBase && key in c.targets {
      WideningLowersRank(c.targets[key].guestFormats,
                         w.plan.formatsPerBase[key.base] + c.targets[key].guestFormats);
    }
  }

  lemma {:induction false} EventSpendsRemaining(w: World, e: Event, key: Key, driver: Driver)
    requires Sound(w.cache, w.plan)
    ensures (if Makes(w, e, key, driver) then 1 else 0) + Remaining(AfterEvent(w, e, driver).cache, key)
         <= Remaining(w.cache, key) + (if Loses(w, e, key, driver) then 3 else 0)
  {
    if e == Get(key) {
      GetSpendsRemaining(w, e, key, driver);
    } else if e.Get? && key in w.cache.targets {
      OthersUntouched(w.cache, w.plan, e.key, key, driver);
    }
  }

  lemma {:induction false} MadeIsBounded(w: World, events: seq<Event>, key: Key, driver: Driver)
    requires Sound(w.cache, w.plan)
    ensures Made(w, events, key, driver) <= Remaining(w.cache, key) + 3 * Lost(w, events, key, driver)
    decreases |events|
  {
    if events != [] {
      EventSpendsRemaining(w, events[0], key, driver);
      EventKeepsSound(w, events[0], driver);
      MadeIsBounded(AfterEvent(w, events[0], driver), events[1..], key, driver);
    }
  }

  /**
   * Over any run of frames a base and view is given at most three host images, so its format
   * changes at most twice; only a promotion that lost the old image without making the new one
   * allows three more.
   */
  lemma {:induction false} PromotedAtMostTwice(events: seq<Event>, reuse: bool, key: Key, driver: Driver)
    ensures Made(Start(reuse), events, key, driver) <= 3 * (1 + Lost(Start(reuse), events, key, driver))
  {
    MadeIsBounded(Start(reuse), events, key, driver);
  }

  // ---------------------------------------------------------------- when formats are forgotten

  /** While a target lives, the set of formats it has been asked to hold only grows. */
  lemma {:induction false} FormatsOnlyGrow(w: World, e: Event, key: Key, driver: Driver)
    requires key in w.cache.targets && key in AfterEvent(w, e, driver).cache.targets
    ensures w.cache.targets[key].guestFormats <= AfterEvent(w, e, driver).cache.targets[key].guestFormats
  {
    if e.Get? && e.key != key {
      OthersUntouched(w.cache, w.plan, e.key, key, driver);
    }
  }

  /** Exactly when a target is lost: a promotion is due, the wait succeeds and the creation fails. */
  lemma {:induction false} LosesIff(w: World, key: Key, driver: Driver)
    requires key in w.cache.targets
    ensures Loses(w, Get(key), key, driver) <==>
              && !(w.plan.reuse && Found(w.cache.lookup, key).Some?)
              && key.base in w.plan.formatsPerBase
              && (var host := HostFormatFor(w.plan.formatsPerBase[key.base] + w.cache.targets[key].guestFormats);
                  host != Undefined && host != w.cache.targets[key].hostFormat)
              && driver(w.cache.attempts) && !driver(w.cache.attempts + 1)
  {}

  /** A target that was lost comes back holding the next frame's formats alone: its history is gone. */
  lemma {:induction false} LossForgets(w: World, key: Key, formats: set<nat>, driver: Driver)
    requires key !in w.cache.targets && HostFormatFor(formats) != Undefined && driver(w.cache.attempts)
    ensures var next := AfterEvent(AfterEvent(w, NewFrame(map[key.base := formats]), driver), Get(key), driver);
            key in next.cache.targets && next.cache.targets[key].guestFormats == formats
  {
    var begun := AfterEvent(w, NewFrame(map[key.base := formats]), driver);
    assert begun.plan.formatsPerBase[key.base] == formats;
    assert Found(begun.cache.lookup, key).None?;
  }

  lemma {:induction false} MixedHosts()
    ensures HostFormatFor({0}) == R8G8B8A8Unorm
    ensures HostFormatFor({2, 0}) == R16G16B16A16Sfloat
    ensures HostFormatFor({14, 2, 0}) == R32G32Sfloat
  {
    assert IsSingle({0});
    assert 0 in {2, 0} && 2 in {2, 0};
    assert 0 in {14, 2, 0} && 2 in {14, 2, 0};
  }

  /** A frame asks once for the base with these formats. */
  function Frame(key: Key, formats: set<nat>): seq<Event> {
    [NewFrame(map[key.base := formats]), Get(key)]
  }

  lemma {:induction false} FrameIsGet(w: World, key: Key, formats: set<nat>, driver: Driver)
    ensures var begun := AfterEvent(w, NewFrame(map[key.base := formats]), driver);
            && begun.cache.targets == w.cache.targets && begun.cache.attempts == w.cache.attempts
            && begun.plan.formatsPerBase == map[key.base := formats]
            && Found(begun.cache.lookup, key).None?
            && AfterEvents(w, Frame(key, formats), driver) == AfterEvent(begun, Get(key), driver)
  {
    var begun := AfterEvent(w, NewFrame(map[key.base := formats]), driver);
    assert Frame(key, formats)[1..] == [Get(key)] && [Get(key)][1..] == [];
    assert AfterEvents(begun, [Get(key)], driver) == AfterEvents(AfterEvent(begun, Get(key), driver), [], driver);
  }

  function Required(w: World, formats: set<nat>, key: Key): set<nat> {
    formats + if key in w.cache.targets then w.cache.targets[key].guestFormats else {}
  }

  /** The next frame adds formats that need another container, and the driver does what it is asked. */
  ghost predicate NeedsImage(w: World, formats: set<nat>, key: Key, driver: Driver) {
    && driver(w.cache.attempts) && driver(w.cache.attempts + 1)
    && HostFormatFor(Required(w, formats, key)) != Undefined
    && (key in w.cache.targets ==> HostFormatFor(Required(w, formats, key)) != w.cache.targets[key].hostFormat)
  }

  lemma {:induction false} GetGivesImage(begun: World, key: Key, formats: set<nat>, driver: Driver)
    requires NeedsImage(begun, formats, key, driver) && Found(begun.cache.lookup, key).None?
    requires begun.plan.formatsPerBase == map[key.base := formats]
    ensures var next := AfterEvent(begun, Get(key), driver);
            Makes(begun, Get(key), key, driver) && HasImage(next, key, Required(begun, formats, key))
  {
    assert key !in begun.cache.targets ==> formats + {} == formats;
  }

  lemma {:induction false} MadeOfFrame(w: World, formats: set<nat>, key: Key, driver: Driver, rest: seq<Event>)
    ensures var begun := AfterEvent(w, NewFrame(map[key.base := formats]), driver);
            Made(w, Frame(key, formats) + rest, key, driver)
            == (if Makes(begun, Get(key), key, driver) then 1 else 0)
               + Made(AfterEvent(begun, Get(key), driver), rest, key, driver)
  {
    var events := Frame(key, formats) + rest;
    assert events[0] == NewFrame(map[key.base := formats]);
    assert events[1..] == [Get(key)] + rest && events[1..][1..] == rest;
  }

  ghost predicate HasImage(w: World, key: Key, formats: set<nat>) {
    && key in w.cache.targets && w.cache.targets[key].guestFormats == formats
    && w.cache.targets[key].hostFormat == HostFormatFor(formats)
  }

  lemma {:induction false} FrameGivesImage(w: World, formats: set<nat>, key: Key, driver: Driver, rest: seq<Event>)
    requires NeedsImage(w, formats, key, driver)
    ensures var next := AfterEvents(w, Frame(key, formats), driver);
            && Made(w, Frame(key, formats) + rest, key, driver) == 1 + Made(next, rest, key, driver)
            && HasImage(next, key, Required(w, formats, key))
  {
    var begun := AfterEvent(w, NewFrame(map[key.base := formats]), driver);
    FrameIsGet(w, key, formats, driver);
    StillNeedsImage(w, begun, formats, key, driver);
    GetGivesImage(begun, key, formats, driver);
    MadeOfFrame(w, formats, key, driver, rest);
  }

  lemma {:induction false} StillNeedsImage(w: World, begun: World, formats: set<nat>, key: Key, driver: Driver)
    requires begun.cache.targets == w.cache.targets && begun.cache.attempts == w.cache.attempts
    requires NeedsImage(w, formats, key, driver)
    ensures NeedsImage(begun, formats, key, driver) && Required(begun, formats, key) == Required(w, formats, key)
  {}

  /** Two changes do happen: 8-bit, then a mixed set, then one with a 32-bit float format. */
  lemma {:induction false} TwoPromotionsHappen(key: Key, reuse: bool, driver: Driver)
    requires forall n :: driver(n)
    ensures Made(Start(reuse), Frame(key, {0}) + (Frame(key, {2}) + (Frame(key, {14}) + [])), key, driver) == 3
  {
    MixedHosts();
    var w0 := Start(reuse);
    assert {0} + {} == {0};
    FrameGivesImage(w0, {0}, key, driver, Frame(key, {2}) + (Frame(key, {14}) + []));
    TwoMorePromotions(AfterEvents(w0, Frame(key, {0}), driver), key, driver);
  }

  lemma {:induction false} TwoMorePromotions(w1: World, key: Key, driver: Driver)
    requires forall n :: driver(n)
    requires key in w1.cache.targets && w1.cache.targets[key].guestFormats == {0}
    requires w1.cache.targets[key].hostFormat == R8G8B8A8Unorm
    ensures Made(w1, Frame(key, {2}) + (Frame(key, {14}) + []), key, driver) == 2
  {
    MixedHosts();
    assert {2} + {0} == {2, 0} && {14} + {2, 0} == {14, 2, 0};
    FrameGivesImage(w1, {2}, key, driver, Frame(key, {14}) + []);
    FrameGivesImage(AfterEvents(w1, Frame(key, {2}), driver), {14}, key, driver, []);
  }

  // ---------------------------------------------------------------- forgetting, over runs

  /** The target never goes, and never holds fewer formats than it did at the start. */
  ghost predicate KeptThroughout(w: World, events: seq<Event>, key: Key, driver: Driver)
    requires key in w.cache.targets
    decreases |events|
  {
    events == []
    || (&& key in AfterEvent(w, events[0], driver).cache.targets
        && w.cache.targets[key].guestFormats <= AfterEvent(w, events[0], driver).cache.targets[key].guestFormats
        && KeptThroughout(AfterEvent(w, events[0], driver), events[1..], key, driver))
  }

  /** Over a run from a frame that has the target, its formats are kept if and only if no step loses it. */
  lemma {:induction false} FormatsKeptIff(w: World, events: seq<Event>, key: Key, driver: Driver)
    requires key in w.cache.targets
    ensures KeptThroughout(w, events, key, driver) <==> Lost(w, events, key, driver) == 0
    decreases |events|
  {
    if events != [] {
      var next := AfterEvent(w, events[0], driver);
      if key in next.cache.targets {
        FormatsOnlyGrow(w, events[0], key, driver);
        FormatsKeptIff(next, events[1..], key, driver);
      }
    }
  }

  lemma {:induction false} HostsOfOne()
    ensures HostFormatFor({0}) == R8G8B8A8Unorm && HostFormatFor({2}) == A2B10G10R10Unorm
  {
    assert IsSingle({0}) && IsSingle({2});
  }

  /**
   * A base drawn as 8-bit, then in a frame that adds 10-bit and whose promotion fails to make the new image,
   * then as 10-bit: the target it ends with has never heard of 8-bit.
   */
  lemma {:induction false} FormatIsForgotten(key: Key, reuse: bool, driver: Driver)
    requires driver(0) && driver(1) && !driver(2) && driver(3)
    ensures var first := AfterEvents(Start(reuse), Frame(key, {0}), driver);
            var second := AfterEvents(first, Frame(key, {2}), driver);
            var third := AfterEvents(second, Frame(key, {2}), driver);
            && key in first.cache.targets && first.cache.targets[key].guestFormats == {0}
            && key !in second.cache.targets
            && key in third.cache.targets && third.cache.targets[key].guestFormats == {2}
            && third.cache.targets[key].hostFormat == A2B10G10R10Unorm
  {
    MixedHosts();
    HostsOfOne();
    FrameIsGet(Start(reuse), key, {0}, driver);
    var first := AfterEvents(Start(reuse), Frame(key, {0}), driver);
    assert first.cache.targets[key] == Target(0, {0}, R8G8B8A8Unorm) && first.cache.attempts == 1;
    FrameIsGet(first, key, {2}, driver);
    assert {2} + {0} == {2, 0};
    var second := AfterEvents(first, Frame(key, {2}), driver);
    assert key !in second.cache.targets && second.cache.attempts == 3;
    FrameIsGet(second, key, {2}, driver);
  }
}
