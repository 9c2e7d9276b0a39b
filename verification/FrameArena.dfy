/**
 * The per-draw arena: a bump allocator over one mapped buffer, with a buffer of its own for
 * every block that does not fit, and a demand mark that sizes the next frame's arena.
 */
module FrameArenas {
  import opened Wrappers

  type Byte = bv8

  datatype Buffer = NoBuffer | ArenaBuffer | KeptBuffer(index: nat)

  datatype Place = Place(buffer: Buffer, offset: nat)

  /**
   * The memory a frame suballocates from. `kept[i]` is what was copied into fallback buffer i.
   */
  datatype Store = Store(
    mapped: bool,
    memory: seq<Byte>,
    cursor: nat,
    wanted: nat,
    overflows: nat,
    kept: seq<seq<Byte>>)

  lemma {:induction false} AtLeast(d: int, a: nat)
    requires d >= 1
    ensures d * a >= a
  {}

  lemma {:induction false} ModUnique(x: nat, q: nat, r: nat, a: nat)
    requires a > 0 && r < a && x == q * a + r
    ensures x % a == r && x / a == q
  {
    var p, s := x / a, x % a;
    assert x == p * a + s;
    assert (q - p) * a == s - r;
    if q > p {
      AtLeast(q - p, a);
    } else if q < p {
      assert (p - q) * a == r - s;
      AtLeast(p - q, a);
    }
  }

  /** Alignments are powers of two, so clearing the low bits of y is taking y % alignment away. */
  function AlignUp(x: nat, alignment: nat): (r: nat)
    requires alignment > 0
    ensures x <= r < x + alignment && r % alignment == 0
    ensures x % alignment == 0 ==> r == x
  {
    AlignUpBounds(x, alignment);
    var y := x + alignment - 1;
    y - y % alignment
  }

  lemma {:induction false} AlignUpBounds(x: nat, alignment: nat)
    requires alignment > 0
    ensures var y := x + alignment - 1;
            var r := y - y % alignment;
            r >= 0 && r % alignment == 0 && (x % alignment == 0 ==> r == x)
  {
    var y := x + alignment - 1;
    assert y == y / alignment * alignment + y % alignment;
    ModUnique(y - y % alignment, y / alignment, 0, alignment);
    if x % alignment == 0 {
      assert x == x / alignment * alignment;
      ModUnique(y, x / alignment, alignment - 1, alignment);
    }
  }

  predicate Fits(s: Store, size: nat, alignment: nat)
    requires alignment > 0
  {
    s.mapped && AlignUp(s.cursor, alignment) + size <= |s.memory|
  }

  function Overwrite(memory: seq<Byte>, offset: nat, data: seq<Byte>): seq<Byte>
    requires offset + |data| <= |memory|
  {
    memory[..offset] + data + memory[offset + |data|..]
  }

  function AfterWrite(s: Store, data: seq<Byte>, alignment: nat): Store
    requires alignment > 0
  {
    if !s.mapped then s
    else if !Fits(s, |data|, alignment) then s.(wanted := s.wanted + AlignUp(|data|, alignment))
    else
      var offset := AlignUp(s.cursor, alignment);
      s.(memory := Overwrite(s.memory, offset, data), cursor := offset + |data|)
  }

  /** A block that fits goes into the arena; one that does not gets a buffer of its own, if one can be made. */
  function AfterMake(s: Store, data: seq<Byte>, alignment: nat, copied: nat, canAllocate: bool): Store
    requires alignment > 0 && copied <= |data|
  {
    var s' := AfterWrite(s, data, alignment);
    if Fits(s, |data|, alignment) then s'
    else s'.(overflows := s'.overflows + 1, kept := if canAllocate then s'.kept + [data[..copied]] else s'.kept)
  }

  function MadeAt(s: Store, size: nat, alignment: nat, canAllocate: bool): Option<Place>
    requires alignment > 0
  {
    if Fits(s, size, alignment) then Some(Place(ArenaBuffer, AlignUp(s.cursor, alignment)))
    else if canAllocate then Some(Place(KeptBuffer(|s.kept|), 0))
    else None
  }

  function AfterMakeIndexBuffer(s: Store, data: seq<Byte>, canAllocate: bool): Store {
    AfterMake(s, data, 4, |data|, canAllocate)
  }

  function UboBytes(size: nat): nat {
    if size < 16 then 16 else size
  }

  /** `data` is at least as long as the padded block, since the arena copy takes the padded length. */
  function AfterMakeUbo(s: Store, data: seq<Byte>, size: nat, alignment: nat, canAllocate: bool): Store
    requires alignment > 0 && UboBytes(size) <= |data|
  {
    AfterMake(s, data[..UboBytes(size)], alignment, size, canAllocate)
  }

  /** The bytes at a place, or nothing when the range is not all there. */
  function BytesAt(s: Store, p: Place, length: nat): Option<seq<Byte>> {
    match p.buffer
    case NoBuffer => None
    case ArenaBuffer =>
      // Only what has been handed out may be named.
      if s.mapped && p.offset + length <= s.cursor <= |s.memory| then Some(s.memory[p.offset..p.offset + length]) else None
    case KeptBuffer(i) =>
      if i < |s.kept| && p.offset + length <= |s.kept[i]| then Some(s.kept[i][p.offset..p.offset + length]) else None
  }

  /** Nothing that has been handed out changes: `s'` is `s` after more allocations. */
  ghost predicate Extends(s: Store, s': Store) {
    && s'.mapped == s.mapped && |s'.memory| == |s.memory|
    && s.cursor <= s'.cursor
    && (s.cursor <= |s.memory| ==> s'.cursor <= |s'.memory| && s'.memory[..s.cursor] == s.memory[..s.cursor])
    && |s.kept| <= |s'.kept| && s'.kept[..|s.kept|] == s.kept
  }

  lemma {:induction false} MakeExtends(s: Store, data: seq<Byte>, alignment: nat, copied: nat, canAllocate: bool)
    requires alignment > 0 && copied <= |data|
    ensures Extends(s, AfterMake(s, data, alignment, copied, canAllocate))
  {
    var s' := AfterMake(s, data, alignment, copied, canAllocate);
    if Fits(s, |data|, alignment) && s.cursor <= |s.memory| {
      assert s'.memory[..s.cursor] == s.memory[..s.cursor];
    }
  }

  /** A block reads back as what was put in it, wherever it went. */
  lemma {:induction false} MadeReadsBack(s: Store, data: seq<Byte>, alignment: nat, copied: nat, canAllocate: bool)
    requires alignment > 0 && copied <= |data|
    requires MadeAt(s, |data|, alignment, canAllocate).Some?
    ensures var p := MadeAt(s, |data|, alignment, canAllocate).value;
            BytesAt(AfterMake(s, data, alignment, copied, canAllocate), p, copied) == Some(data[..copied])
  {
    var p := MadeAt(s, |data|, alignment, canAllocate).value;
    var s' := AfterMake(s, data, alignment, copied, canAllocate);
    if p.buffer.ArenaBuffer? {
      assert s'.memory[p.offset..p.offset + copied] == data[..copied];
    } else {
      assert s'.kept[|s.kept|] == data[..copied];
      assert data[..copied][0..copied] == data[..copied];
    }
  }

  /**
   * A uniform reads back wherever it went. In the arena its block has at least sixteen bytes, the data's own
   * and those behind it, at an offset that is aligned.
   */
  lemma {:induction false} UniformReadsBack(s: Store, data: seq<Byte>, size: nat, alignment: nat, canAllocate: bool)
    requires alignment > 0 && size <= |data| && 16 <= |data|
    requires MadeAt(s, if size < 16 then 16 else size, alignment, canAllocate).Some?
    ensures var bytes := if size < 16 then 16 else size;
            var p, s' := MadeAt(s, bytes, alignment, canAllocate).value, AfterMakeUbo(s, data, size, alignment, canAllocate);
            && BytesAt(s', p, size) == Some(data[..size])
            && (p.buffer.ArenaBuffer? ==>
                  p.offset % alignment == 0 && s.cursor <= p.offset && BytesAt(s', p, bytes) == Some(data[..bytes]))
  {
    var bytes := if size < 16 then 16 else size;
    MadeReadsBack(s, data[..bytes], alignment, size, canAllocate);
    assert data[..bytes][..size] == data[..size];
    if MadeAt(s, bytes, alignment, canAllocate).value.buffer.ArenaBuffer? {
      var p, s' := MadeAt(s, bytes, alignment, canAllocate).value, AfterMakeUbo(s, data, size, alignment, canAllocate);
      assert s'.memory[p.offset..p.offset + bytes] == data[..bytes];
    }
  }

  /** Bytes handed out survive every later allocation. */
  lemma {:induction false} BytesSurvive(s: Store, s': Store, p: Place, length: nat)
    requires Extends(s, s') && BytesAt(s, p, length).Some?
    ensures BytesAt(s', p, length) == BytesAt(s, p, length)
  {
    if p.buffer.ArenaBuffer? {
      var lo, hi := p.offset, p.offset + length;
      assert s.memory[lo..hi] == s.memory[..s.cursor][lo..hi] == s'.memory[..s.cursor][lo..hi] == s'.memory[lo..hi];
    } else {
      assert s'.kept[p.buffer.index] == s'.kept[..|s.kept|][p.buffer.index];
    }
  }

  // ---------------------------------------------------------------- the arena object

  class FrameArena {
    var arena: array<Byte>
    var mapped: bool
    var arenaHighWater: nat
    var cursor: nat
    var overflows: nat
    var wanted: nat
    var keepBuffers: seq<array<Byte>>
    // Scratch that index conversion reuses from draw to draw.
    var indexSource: seq<bv32>
    var indexExpanded: seq<bv32>

    ghost predicate Valid()
      reads this
    {
      arena !in keepBuffers
    }

    ghost function Contents(): Store
      reads this, arena, keepBuffers
    {
      Store(mapped, arena[..], cursor, wanted, overflows,
            seq(|keepBuffers|, i requires 0 <= i < |keepBuffers| reads this, keepBuffers => keepBuffers[i][..]))
    }

    /** A frame's arena over the buffer the frame slot kept, sized by the mark the renderer kept. */
    constructor (arena: array<Byte>, mapped: bool, arenaHighWater: nat)
      ensures Valid() && this.arena == arena && this.mapped == mapped
      ensures this.arenaHighWater == arenaHighWater
      ensures cursor == wanted == overflows == 0 && keepBuffers == []
    {
      this.arena, this.mapped, this.arenaHighWater := arena, mapped, arenaHighWater;
      cursor, overflows, wanted, keepBuffers := 0, 0, 0, [];
      indexSource, indexExpanded := [], [];
    }

    /** Grows the arena when the mark has outgrown it. `canAllocate` is the device's answer. */
    method Build(nDraws: nat, canAllocate: bool)
      requires Valid() && keepBuffers == [] && cursor == 0
      modifies this`arena, this`mapped, this`arenaHighWater
      ensures Valid()
      ensures (arenaHighWater, arena.Length) == Sized(old(arenaHighWater), old(arena.Length), nDraws, canAllocate)
      ensures arenaHighWater == if old(arenaHighWater) == 0 then 0x4000 * nDraws else old(arenaHighWater)
      ensures arenaHighWater > old(arena.Length) ==>
                arena.Length == if canAllocate then arenaHighWater + arenaHighWater / 4 + 0x1_0000 else 0
      ensures arenaHighWater <= old(arena.Length) ==> arena == old(arena) && mapped == old(mapped)
      ensures arenaHighWater > old(arena.Length) ==> fresh(arena) && mapped == canAllocate
    {
      if arenaHighWater == 0 {
        arenaHighWater := nDraws * 16384;
      }
      if arenaHighWater <= arena.Length {
        return;
      }
      var want := arenaHighWater + arenaHighWater / 4 + 0x10000;
      if canAllocate {
        arena := new Byte[want];
        mapped := true;
      } else {
        arena := new Byte[0];
        mapped := false;
      }
    }

    method Write(data: seq<Byte>, alignment: nat) returns (offset: Option<nat>)
      requires Valid() && alignment > 0
      modifies this`cursor, this`wanted, arena
      ensures Valid()
      ensures offset == if Fits(old(Contents()), |data|, alignment) then Some(AlignUp(old(cursor), alignment)) else None
      ensures Contents() == AfterWrite(old(Contents()), data, alignment)
    {
      if !mapped {
        return None;
      }
      var at := AlignUp(cursor, alignment);
      if at + |data| > arena.Length {
        wanted := wanted + AlignUp(|data|, alignment);
        return None;
      }
      forall k | 0 <= k < |data| {
        arena[at + k] := data[k];
      }
      cursor := at + |data|;
      offset := Some(at);
      assert arena[..] == Overwrite(old(arena[..]), at, data);
      assert forall i :: 0 <= i < |keepBuffers| ==> keepBuffers[i][..] == old(keepBuffers[i][..]);
      assert Contents().kept == old(Contents().kept);
    }

    /** A buffer of its own for a block that did not fit. */
    method Fallback(data: seq<Byte>, canAllocate: bool) returns (place: Option<Place>)
      requires Valid()
      modifies this`overflows, this`keepBuffers
      ensures Valid()
      ensures place == if canAllocate then Some(Place(KeptBuffer(|old(keepBuffers)|), 0)) else None
      ensures Contents() == old(Contents()).(
                overflows := old(overflows) + 1,
                kept := if canAllocate then old(Contents()).kept + [data] else old(Contents()).kept)
    {
      overflows := overflows + 1;
      if !canAllocate {
        return None;
      }
      var b := new Byte[|data|](i requires 0 <= i < |data| => data[i]);
      assert b[..] == data;
      place := Some(Place(KeptBuffer(|keepBuffers|), 0));
      keepBuffers := keepBuffers + [b];
    }

    method MakeIndexBuffer(data: seq<Byte>, canAllocate: bool) returns (place: Option<Place>)
      requires Valid()
      modifies this`cursor, this`wanted, this`overflows, this`keepBuffers, arena
      ensures Valid()
      ensures place == MadeAt(old(Contents()), |data|, 4, canAllocate)
      ensures Contents() == AfterMakeIndexBuffer(old(Contents()), data, canAllocate)
    {
      var offset := Write(data, 4);
      if offset.Some? {
        return Some(Place(ArenaBuffer, offset.value));
      }
      assert data[..|data|] == data;
      place := Fallback(data, canAllocate);
    }

    method MakeUbo(data: seq<Byte>, size: nat, uniformOffsetAlignment: nat, canAllocate: bool)
      returns (place: Option<Place>)
      requires Valid() && uniformOffsetAlignment > 0 && UboBytes(size) <= |data|
      modifies this`cursor, this`wanted, this`overflows, this`keepBuffers, arena
      ensures Valid()
      ensures place == MadeAt(old(Contents()), UboBytes(size), uniformOffsetAlignment, canAllocate)
      ensures Contents() == AfterMakeUbo(old(Contents()), data, size, uniformOffsetAlignment, canAllocate)
    {
      var offset := Write(data[..UboBytes(size)], uniformOffsetAlignment);
      if offset.Some? {
        return Some(Place(ArenaBuffer, offset.value));
      }
      assert data[..UboBytes(size)][..size] == data[..size];
      place := Fallback(data[..size], canAllocate);
    }

    method EndFrame()
      modifies this`arenaHighWater
      ensures arenaHighWater == Marked(old(arenaHighWater), cursor, wanted)
    {
      if cursor + wanted > arenaHighWater {
        arenaHighWater := cursor + wanted;
      }
    }
  }

  // ---------------------------------------------------------------- sizing

  /** The mark and the arena size after `Build`. */
  function Sized(highWater: nat, arenaBytes: nat, nDraws: nat, canAllocate: bool): (nat, nat) {
    var mark := if highWater == 0 then nDraws * 16384 else highWater;
    if mark <= arenaBytes then (mark, arenaBytes)
    else (mark, if canAllocate then mark + mark / 4 + 0x10000 else 0)
  }

  function Marked(highWater: nat, cursor: nat, wanted: nat): nat {
    if cursor + wanted > highWater then cursor + wanted else highWater
  }

  datatype Request = Request(size: nat, alignment: nat)

  /** How full the arena is; the part of a `Store` that decides where a block goes. */
  datatype Layout = Layout(capacity: nat, cursor: nat, wanted: nat)

  predicate WellFormed(requests: seq<Request>) {
    forall r :: r in requests ==> r.alignment > 0
  }

  function OffsetOf(l: Layout, r: Request): Option<nat>
    requires r.alignment > 0
  {
    var offset := AlignUp(l.cursor, r.alignment);
    if offset + r.size <= l.capacity then Some(offset) else None
  }

  function AfterRequest(l: Layout, r: Request): Layout
    requires r.alignment > 0
  {
    match OffsetOf(l, r)
    case Some(offset) => l.(cursor := offset + r.size)
    case None => l.(wanted := l.wanted + AlignUp(r.size, r.alignment))
  }

  function LayoutOf(s: Store): Layout {
    Layout(|s.memory|, s.cursor, s.wanted)
  }

  function AfterRequests(l: Layout, requests: seq<Request>): Layout
    requires WellFormed(requests)
    decreases |requests|
  {
    if requests == [] then l else AfterRequests(AfterRequest(l, requests[0]), requests[1..])
  }

  /** One allocation of a frame: what is stored, how it is aligned, and whether a fallback could be made. */
  datatype Block = Block(data: seq<Byte>, alignment: nat, canAllocate: bool)

  ghost predicate Aligned(blocks: seq<Block>) {
    forall b :: b in blocks ==> b.alignment > 0
  }

  function Asked(blocks: seq<Block>): seq<Request> {
    seq(|blocks|, i requires 0 <= i < |blocks| => Request(|blocks[i].data|, blocks[i].alignment))
  }

  function AfterMakes(s: Store, blocks: seq<Block>): Store
    requires Aligned(blocks)
    decreases |blocks|
  {
    if blocks == [] then s
    else
      assert blocks[0] in blocks;
      AfterMakes(AfterMake(s, blocks[0].data, blocks[0].alignment, |blocks[0].data|, blocks[0].canAllocate), blocks[1..])
  }

  /** Where one block goes, and what it leaves, is what its request does to the layout. */
  lemma {:induction false} MakeFollowsLayout(s: Store, b: Block)
    requires s.mapped && b.alignment > 0
    ensures var r := Request(|b.data|, b.alignment);
            && LayoutOf(AfterMake(s, b.data, b.alignment, |b.data|, b.canAllocate)) == AfterRequest(LayoutOf(s), r)
            && forall at: nat :: OffsetOf(LayoutOf(s), r) == Some(at)
                            <==> MadeAt(s, |b.data|, b.alignment, b.canAllocate) == Some(Place(ArenaBuffer, at))
  {}

  /** Over a whole frame of allocations the arena fills as its requests lay out, fallbacks or not. */
  lemma {:induction false} MakesFollowLayout(s: Store, blocks: seq<Block>)
    requires s.mapped && Aligned(blocks)
    ensures WellFormed(Asked(blocks))
    ensures LayoutOf(AfterMakes(s, blocks)) == AfterRequests(LayoutOf(s), Asked(blocks))
    decreases |blocks|
  {
    forall r | r in Asked(blocks)
      ensures r.alignment > 0
    {
      var i :| 0 <= i < |blocks| && Asked(blocks)[i] == r;
      assert blocks[i] in blocks;
    }
    if blocks != [] {
      assert blocks[0] in blocks;
      var b := blocks[0];
      MakeFollowsLayout(s, b);
      assert Asked(blocks)[1..] == Asked(blocks[1..]);
      MakesFollowLayout(AfterMake(s, b.data, b.alignment, |b.data|, b.canAllocate), blocks[1..]);
    }
  }

  function Offsets(l: Layout, requests: seq<Request>): (offsets: seq<Option<nat>>)
    requires WellFormed(requests)
    ensures |offsets| == |requests|
    decreases |requests|
  {
    if requests == [] then []
    else [OffsetOf(l, requests[0])] + Offsets(AfterRequest(l, requests[0]), requests[1..])
  }

  function Missed(offsets: seq<Option<nat>>): nat {
    if offsets == [] then 0 else (if offsets[0].None? then 1 else 0) + Missed(offsets[1..])
  }

  /** Each request that the arena cannot take counts once as an overflow, and has a buffer of its own if one could be made. */
  lemma {:induction false} OverflowsAreCounted(s: Store, blocks: seq<Block>)
    requires s.mapped && Aligned(blocks) && WellFormed(Asked(blocks))
    ensures AfterMakes(s, blocks).overflows == s.overflows + Missed(Offsets(LayoutOf(s), Asked(blocks)))
    ensures (forall b :: b in blocks ==> b.canAllocate) ==>
              |AfterMakes(s, blocks).kept| == |s.kept| + Missed(Offsets(LayoutOf(s), Asked(blocks)))
    decreases |blocks|
  {
    if blocks != [] {
      assert blocks[0] in blocks;
      var b := blocks[0];
      MakeFollowsLayout(s, b);
      var rest, offsets := Asked(blocks[1..]), Offsets(LayoutOf(s), Asked(blocks));
      assert Asked(blocks)[1..] == rest;
      assert forall r :: r in rest ==> r in Asked(blocks);
      OverflowsAreCounted(AfterMake(s, b.data, b.alignment, |b.data|, b.canAllocate), blocks[1..]);
      assert offsets[1..] == Offsets(AfterRequest(LayoutOf(s), Asked(blocks)[0]), rest);
    }
  }

  /**
   * Every block that landed in the arena is aligned and inside it, and comes after
   * every block that landed before it.
   */
  lemma {:induction false} BlocksAreDisjoint(l: Layout, requests: seq<Request>, j: nat)
    requires WellFormed(requests) && j < |requests|
    ensures Offsets(l, requests)[j].Some? ==>
              var at := Offsets(l, requests)[j].value;
              && at % requests[j].alignment == 0 && l.cursor <= at && at + requests[j].size <= l.capacity
              && forall i :: 0 <= i < j && Offsets(l, requests)[i].Some? ==>
                   Offsets(l, requests)[i].value + requests[i].size <= at
    decreases |requests|
  {
    if j > 0 && Offsets(l, requests)[j].Some? {
      var l', rest := AfterRequest(l, requests[0]), requests[1..];
      BlocksAreDisjoint(l', rest, j - 1);
      assert rest[j - 1] == requests[j];
      forall i | 0 <= i < j && Offsets(l, requests)[i].Some?
        ensures Offsets(l, requests)[i].value + requests[i].size <= Offsets(l, requests)[j].value
      {
        if i > 0 {
          assert Offsets(l', rest)[i - 1] == Offsets(l, requests)[i] && rest[i - 1] == requests[i];
        }
      }
    }
  }

  /** Where the cursor would end in an arena without an end. */
  function FullLayout(cursor: nat, requests: seq<Request>): nat
    requires WellFormed(requests)
    decreases |requests|
  {
    if requests == [] then cursor
    else FullLayout(AlignUp(cursor, requests[0].alignment) + requests[0].size, requests[1..])
  }

  lemma {:induction false} FullLayoutGrows(cursor: nat, requests: seq<Request>)
    requires WellFormed(requests)
    ensures FullLayout(cursor, requests) >= cursor
    decreases |requests|
  {
    if requests != [] {
      FullLayoutGrows(AlignUp(cursor, requests[0].alignment) + requests[0].size, requests[1..]);
    }
  }

  /** Every request landed in the arena. */
  ghost predicate AllLanded(offsets: seq<Option<nat>>) {
    forall i :: 0 <= i < |offsets| ==> offsets[i].Some?
  }

  lemma {:induction false} AllLandedCons(first: Option<nat>, rest: seq<Option<nat>>)
    ensures AllLanded([first] + rest) <==> first.Some? && AllLanded(rest)
  {
    var all := [first] + rest;
    if AllLanded(all) {
      assert all[0] == first;
      forall i | 0 <= i < |rest|
        ensures rest[i].Some?
      {
        assert all[i + 1] == rest[i];
      }
    }
  }

  /** A frame runs without overflow exactly when its full layout fits. */
  lemma {:induction false} NoOverflowIff(l: Layout, requests: seq<Request>)
    requires WellFormed(requests) && l.cursor <= l.capacity
    ensures AllLanded(Offsets(l, requests)) <==> FullLayout(l.cursor, requests) <= l.capacity
    decreases |requests|
  {
    if requests != [] {
      var r, rest := requests[0], requests[1..];
      assert r in requests;
      AllLandedCons(OffsetOf(l, r), Offsets(AfterRequest(l, r), rest));
      FullLayoutGrows(AlignUp(l.cursor, r.alignment) + r.size, rest);
      if OffsetOf(l, r).Some? {
        NoOverflowIff(AfterRequest(l, r), rest);
      }
    }
  }

  /** What the mark can miss: one alignment, less a byte, for each request. */
  function Slack(requests: seq<Request>): nat
    requires WellFormed(requests)
  {
    if requests == [] then 0
    else
      assert requests[0] in requests;
      requests[0].alignment - 1 + Slack(requests[1..])
  }

  lemma {:induction false} OneMoreShare(n: nat, share: nat)
    requires n > 0
    ensures n * share == share + (n - 1) * share
  {}

  lemma {:induction false} SlackBound(requests: seq<Request>, largest: nat)
    requires WellFormed(requests) && forall r :: r in requests ==> r.alignment <= largest
    ensures requests == [] || largest > 0
    ensures Slack(requests) <= |requests| * (if largest > 0 then largest - 1 else 0)
  {
    if requests != [] {
      assert requests[0] in requests;
      SlackBound(requests[1..], largest);
      OneMoreShare(|requests|, largest - 1);
    }
  }

  function TotalSize(requests: seq<Request>): nat {
    if requests == [] then 0 else requests[0].size + TotalSize(requests[1..])
  }

  lemma {:induction false} DemandBounds(l: Layout, cursor: nat, requests: seq<Request>)
    requires WellFormed(requests)
    ensures FullLayout(cursor, requests) <= cursor + TotalSize(requests) + Slack(requests)
    ensures AfterRequests(l, requests).cursor + AfterRequests(l, requests).wanted
            >= l.cursor + l.wanted + TotalSize(requests)
    decreases |requests|
  {
    if requests != [] {
      assert requests[0] in requests;
      DemandBounds(AfterRequest(l, requests[0]),
                   AlignUp(cursor, requests[0].alignment) + requests[0].size, requests[1..]);
    }
  }

  /** The mark falls short of the frame's full layout by at most the slack. */
  lemma {:induction false} MarkFallsShortByAtMostSlack(highWater: nat, capacity: nat, requests: seq<Request>)
    requires WellFormed(requests)
    ensures var l := AfterRequests(Layout(capacity, 0, 0), requests);
            FullLayout(0, requests) <= Marked(highWater, l.cursor, l.wanted) + Slack(requests)
  {
    DemandBounds(Layout(capacity, 0, 0), 0, requests);
  }

  /**
   * Every size is a multiple of the one alignment in use. Then the mark is the full layout,
   * whatever fitted, so the same requests fit the next frame.
   */
  lemma {:induction false} SharedAlignmentMarksExactly(l: Layout, requests: seq<Request>, alignment: nat)
    requires alignment > 0 && l.cursor % alignment == 0
    requires forall r :: r in requests ==> r.alignment == alignment && r.size % alignment == 0
    ensures AfterRequests(l, requests).cursor + AfterRequests(l, requests).wanted
            == l.cursor + l.wanted + TotalSize(requests)
    ensures FullLayout(l.cursor, requests) == l.cursor + TotalSize(requests)
    decreases |requests|
  {
    if requests != [] {
      var r := requests[0];
      assert r in requests;
      SumMod(l.cursor, r.size, alignment);
      assert AlignUp(l.cursor, alignment) == l.cursor && AlignUp(r.size, alignment) == r.size;
      SharedAlignmentMarksExactly(AfterRequest(l, r), requests[1..], alignment);
      SharedAlignmentMarksExactly(l.(cursor := l.cursor + r.size), requests[1..], alignment);
    }
  }

  lemma {:induction false} SumMod(x: nat, y: nat, m: nat)
    requires m > 0 && x % m == 0 && y % m == 0
    ensures (x + y) % m == 0
  {
    assert x == x / m * m && y == y / m * m;
    assert x + y == (x / m + y / m) * m;
    ModUnique(x + y, x / m + y / m, 0, m);
  }

  lemma {:induction false} SameRequestsFitNextFrame(highWater: nat, capacity: nat, requests: seq<Request>, alignment: nat, nDraws: nat)
    requires alignment > 0
    requires forall r :: r in requests ==> r.alignment == alignment && r.size % alignment == 0
    ensures var l := AfterRequests(Layout(capacity, 0, 0), requests);
            var (_, capacity') := Sized(Marked(highWater, l.cursor, l.wanted), capacity, nDraws, true);
            AllLanded(Offsets(Layout(capacity', 0, 0), requests))
  {
    var l := AfterRequests(Layout(capacity, 0, 0), requests);
    SharedAlignmentMarksExactly(Layout(capacity, 0, 0), requests, alignment);
    var (_, capacity') := Sized(Marked(highWater, l.cursor, l.wanted), capacity, nDraws, true);
    NoOverflowIff(Layout(capacity', 0, 0), requests);
  }

  /** Any requests fit the frame after one whose overflow grew the arena, if the headroom covers the slack. */
  lemma {:induction false} GrownArenaFits(highWater: nat, capacity: nat, requests: seq<Request>, nDraws: nat)
    requires WellFormed(requests)
    requires var l := AfterRequests(Layout(capacity, 0, 0), requests);
             var mark := Marked(highWater, l.cursor, l.wanted);
             mark > capacity && Slack(requests) <= mark / 4 + 0x10000
    ensures var l := AfterRequests(Layout(capacity, 0, 0), requests);
            var (_, capacity') := Sized(Marked(highWater, l.cursor, l.wanted), capacity, nDraws, true);
            capacity' > capacity
            && AllLanded(Offsets(Layout(capacity', 0, 0), requests))
  {
    var l := AfterRequests(Layout(capacity, 0, 0), requests);
    var (_, capacity') := Sized(Marked(highWater, l.cursor, l.wanted), capacity, nDraws, true);
    MarkFallsShortByAtMostSlack(highWater, capacity, requests);
    NoOverflowIff(Layout(capacity', 0, 0), requests);
  }

  lemma {:induction false} SmallAlignments(a: nat)
    requires a > 0
    ensures AlignUp(0, a) == 0 && AlignUp(1, a) == a && AlignUp(a, a) == a
  {
    ModUnique(0, 0, 0, a);
    ModUnique(a, 1, 0, a);
  }

  lemma {:induction false} Lands(l: Layout, r: Request, front: nat)
    requires r.alignment > 0 && AlignUp(l.cursor, r.alignment) == front && front + r.size <= l.capacity
    ensures OffsetOf(l, r) == Some(front)
    ensures AfterRequest(l, r) == Layout(l.capacity, front + r.size, l.wanted)
  {}

  lemma {:induction false} Misses(l: Layout, r: Request, front: nat, back: nat)
    requires r.alignment > 0 && AlignUp(l.cursor, r.alignment) == front && front + r.size > l.capacity
    requires AlignUp(r.size, r.alignment) == back
    ensures OffsetOf(l, r) == None
    ensures AfterRequest(l, r) == Layout(l.capacity, l.cursor, l.wanted + back)
  {}

  lemma {:induction false} TwoRequests(l: Layout, first: Request, second: Request)
    requires first.alignment > 0 && second.alignment > 0
    ensures Offsets(l, [first, second]) == [OffsetOf(l, first), OffsetOf(AfterRequest(l, first), second)]
    ensures AfterRequests(l, [first, second]) == AfterRequest(AfterRequest(l, first), second)
  {
    var both := [first, second];
    var rest := both[1..];
    assert rest == [second] && rest[1..] == [];
    var l' := AfterRequest(l, first);
    assert Offsets(l', rest) == [OffsetOf(l', second)];
    assert AfterRequests(l', rest) == AfterRequests(AfterRequest(l', second), rest[1..]);
  }

  /**
   * An overflow does not always grow the arena. One byte and then a whole block, at an alignment a
   * and in an arena of more than a and less than 2a bytes: the block overflows, the mark is a + 1,
   * and the arena keeps its size, so the next frame overflows the same way. (With a = 256 and 300
   * bytes the mark is 257.)
   */
  lemma {:induction false} OverflowNeedNotGrow(highWater: nat, capacity: nat, a: nat, nDraws: nat)
    requires 1 < a < capacity < 2 * a && 0 < highWater <= capacity
    ensures var requests := [Request(1, a), Request(a, a)];
            var l := AfterRequests(Layout(capacity, 0, 0), requests);
            && Offsets(Layout(capacity, 0, 0), requests) == [Some(0), None]
            && l.cursor + l.wanted == a + 1
            && Sized(Marked(highWater, l.cursor, l.wanted), capacity, nDraws, true).1 == capacity
  {
    TwoRequests(Layout(capacity, 0, 0), Request(1, a), Request(a, a));
    SmallAlignments(a);
    Lands(Layout(capacity, 0, 0), Request(1, a), 0);
    Misses(Layout(capacity, 1, 0), Request(a, a), a, a);
  }

  function Padding(x: nat, alignment: nat): nat
    requires alignment > 0
  {
    AlignUp(x, alignment) - x
  }

  /**
   * When it does: an overflowing request pushes the recorded demand past the arena, whatever the
   * arena's size, exactly when its own tail padding covers the padding in front of it.
   */
  lemma {:induction false} OverflowGrowsIff(cursor: nat, r: Request)
    requires r.alignment > 0
    ensures (forall capacity: nat :: OffsetOf(Layout(capacity, cursor, 0), r).None? ==>
               AfterRequest(Layout(capacity, cursor, 0), r).cursor + AfterRequest(Layout(capacity, cursor, 0), r).wanted
               > capacity)
            <==> Padding(cursor, r.alignment) <= Padding(r.size, r.alignment)
  {
    if Padding(cursor, r.alignment) > Padding(r.size, r.alignment) {
      var capacity := cursor + AlignUp(r.size, r.alignment);
      assert OffsetOf(Layout(capacity, cursor, 0), r).None?;
    }
  }

  /** What the frame has asked for so far, as the mark will count it. */
  function Demand(l: Layout): nat {
    l.cursor + l.wanted
  }

  /**
   * At a fixed arena: after a request that overflows by some bytes, the demand exceeds the arena
   * exactly when those bytes, what already overflowed and the request's tail padding outweigh the padding
   * in front of it.
   */
  lemma {:induction false} OverflowExceedsIff(l: Layout, r: Request)
    requires r.alignment > 0 && OffsetOf(l, r).None?
    ensures AfterRequest(l, r).capacity == l.capacity
    ensures var excess := AlignUp(l.cursor, r.alignment) + r.size - l.capacity;
            (Demand(AfterRequest(l, r)) > l.capacity
             <==> Padding(l.cursor, r.alignment) < excess + l.wanted + Padding(r.size, r.alignment))
  {}

  lemma {:induction false} DemandNeverFalls(l: Layout, requests: seq<Request>)
    requires WellFormed(requests)
    ensures Demand(AfterRequests(l, requests)) >= Demand(l)
    ensures AfterRequests(l, requests).capacity == l.capacity
    decreases |requests|
  {
    if requests != [] {
      assert requests[0] in requests;
      DemandNeverFalls(AfterRequest(l, requests[0]), requests[1..]);
    }
  }

  lemma {:induction false} RequestsSplit(l: Layout, requests: seq<Request>, i: nat)
    requires WellFormed(requests) && i < |requests|
    ensures AfterRequests(l, requests)
         == AfterRequests(AfterRequest(AfterRequests(l, requests[..i]), requests[i]), requests[i + 1..])
    decreases |requests|
  {
    if i == 0 {
      assert requests[..0] == [];
    } else {
      var rest := requests[1..];
      assert requests[..i][1..] == rest[..i - 1] && requests[i + 1..] == rest[i..];
      RequestsSplit(AfterRequest(l, requests[0]), rest, i - 1);
    }
  }

  /**
   * A whole frame: if one request that overflows has at least as much padding behind it as in front of it, the arena
   * grows, whatever else the frame asks for.
   */
  lemma {:induction false} OverflowGrowsFrame(highWater: nat, capacity: nat, requests: seq<Request>, i: nat, nDraws: nat)
    requires WellFormed(requests) && i < |requests|
    requires var before := AfterRequests(Layout(capacity, 0, 0), requests[..i]);
             && OffsetOf(before, requests[i]).None?
             && Padding(before.cursor, requests[i].alignment) <= Padding(requests[i].size, requests[i].alignment)
    ensures var l := AfterRequests(Layout(capacity, 0, 0), requests);
            Sized(Marked(highWater, l.cursor, l.wanted), capacity, nDraws, true).1 > capacity
  {
    var start := Layout(capacity, 0, 0);
    var before := AfterRequests(start, requests[..i]);
    DemandNeverFalls(start, requests[..i]);
    OverflowExceedsIff(before, requests[i]);
    RequestsSplit(start, requests, i);
    DemandNeverFalls(AfterRequest(before, requests[i]), requests[i + 1..]);
  }

  /** The bytes a frame asks for. */
  function BytesAsked(requests: seq<Request>): nat {
    if requests == [] then 0 else requests[0].size + BytesAsked(requests[1..])
  }

  /** The padding that counts towards the demand: in front of what lands, and behind what overflows. */
  function Gaps(l: Layout, requests: seq<Request>): nat
    requires WellFormed(requests)
    decreases |requests|
  {
    if requests == [] then 0
    else
      var r := requests[0];
      assert r in requests;
      (if OffsetOf(l, r).Some? then Padding(l.cursor, r.alignment) else Padding(r.size, r.alignment))
      + Gaps(AfterRequest(l, r), requests[1..])
  }

  lemma {:induction false} DemandIsAskedAndGaps(l: Layout, requests: seq<Request>)
    requires WellFormed(requests)
    ensures Demand(AfterRequests(l, requests)) == Demand(l) + BytesAsked(requests) + Gaps(l, requests)
    decreases |requests|
  {
    if requests != [] {
      assert requests[0] in requests;
      DemandIsAskedAndGaps(AfterRequest(l, requests[0]), requests[1..]);
    }
  }

  /**
   * A frame grows an arena that its mark does not exceed already if and only if the bytes it asks for, the padding
   * in front of those that land and the padding behind those that overflow come to more than the arena.
   */
  lemma {:induction false} FrameGrowsIff(highWater: nat, capacity: nat, requests: seq<Request>, nDraws: nat)
    requires WellFormed(requests) && 0 < highWater <= capacity
    ensures var l := AfterRequests(Layout(capacity, 0, 0), requests);
            (Sized(Marked(highWater, l.cursor, l.wanted), capacity, nDraws, true).1 > capacity
             <==> BytesAsked(requests) + Gaps(Layout(capacity, 0, 0), requests) > capacity)
  {
    DemandIsAskedAndGaps(Layout(capacity, 0, 0), requests);
  }
}
