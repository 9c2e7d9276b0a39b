/**
 * A draw's index buffer: the guest's indices swapped, widened to 32 bits and, for quad
 * lists, expanded to triangles, with a table that reuses what an identical draw of the
 * frame already converted.
 */
module GuestIndices {
  import opened Wrappers
  import opened FrameArenas

  // ---------------------------------------------------------------- words and bytes

  function LoadWord(b0: Byte, b1: Byte, b2: Byte, b3: Byte): bv32 {
    (b0 as bv32) | ((b1 as bv32) << 8) | ((b2 as bv32) << 16) | ((b3 as bv32) << 24)
  }

  function LoadHalf(b0: Byte, b1: Byte): bv16 {
    (b0 as bv16) | ((b1 as bv16) << 8)
  }

  function StoreWord(w: bv32): (bytes: seq<Byte>)
    ensures |bytes| == 4
  {
    [(w & 0xFF) as bv8, ((w >> 8) & 0xFF) as bv8, ((w >> 16) & 0xFF) as bv8, ((w >> 24) & 0xFF) as bv8]
  }

  function SwapPairs(v: bv32): bv32 { ((v & 0x00FF00FF) << 8) | ((v & 0xFF00FF00) >> 8) }

  function ByteSwap(v: bv32): bv32 { (v << 24) | ((v & 0xFF00) << 8) | ((v >> 8) & 0xFF00) | (v >> 24) }

  function SwapHalves(v: bv32): bv32 { (v << 16) | (v >> 16) }

  /** VGT_DMA_SIZE.swap_mode on a 32-bit index. */
  function SwapGpuWord32(v: bv32, endian: nat): bv32 {
    match endian % 4
    case 0 => v
    case 1 => SwapPairs(v)
    case 2 => ByteSwap(v)
    case _ => SwapHalves(v)
  }

  /** On a 16-bit index, swapping bytes in 32 means in 16, and swapping halves means nothing. */
  function SwapGpuIndex16(v: bv16, endian: nat): bv16 {
    if endian == 1 || endian == 2 then (v >> 8) | (v << 8) else v
  }

  lemma {:induction false} LoadsBack(w: bv32)
    ensures var b := StoreWord(w); LoadWord(b[0], b[1], b[2], b[3]) == w
  {}

  lemma {:induction false} PairsPermute(b0: Byte, b1: Byte, b2: Byte, b3: Byte)
    ensures SwapPairs(LoadWord(b0, b1, b2, b3)) == LoadWord(b1, b0, b3, b2)
  {}

  lemma {:induction false} BytesPermute(b0: Byte, b1: Byte, b2: Byte, b3: Byte)
    ensures ByteSwap(LoadWord(b0, b1, b2, b3)) == LoadWord(b3, b2, b1, b0)
  {}

  lemma {:induction false} HalvesPermute(b0: Byte, b1: Byte, b2: Byte, b3: Byte)
    ensures SwapHalves(LoadWord(b0, b1, b2, b3)) == LoadWord(b2, b3, b0, b1)
  {}

  /** The swaps move the bytes of the guest's word and change none of them. */
  lemma {:induction false} SwapsPermuteBytes(b0: Byte, b1: Byte, b2: Byte, b3: Byte, endian: nat)
    ensures SwapGpuWord32(LoadWord(b0, b1, b2, b3), endian) ==
            match endian % 4 {
              case 0 => LoadWord(b0, b1, b2, b3)
              case 1 => LoadWord(b1, b0, b3, b2)
              case 2 => LoadWord(b3, b2, b1, b0)
              case _ => LoadWord(b2, b3, b0, b1)
            }
  {
    PairsPermute(b0, b1, b2, b3);
    BytesPermute(b0, b1, b2, b3);
    HalvesPermute(b0, b1, b2, b3);
  }

  // ---------------------------------------------------------------- as numbers

  /** The number of four bytes, the lowest first. */
  function Number(b0: Byte, b1: Byte, b2: Byte, b3: Byte): int {
    b0 as int + 0x100 * (b1 as int) + 0x1_0000 * (b2 as int) + 0x100_0000 * (b3 as int)
  }

  /** The numbers that bytes spell, in the order of each mode. */
  function SpelledHalf(b0: Byte, b1: Byte, endian: nat): int {
    if endian == 1 || endian == 2 then Number(b1, b0, 0, 0) else Number(b0, b1, 0, 0)
  }

  function SpelledWord(b0: Byte, b1: Byte, b2: Byte, b3: Byte, endian: nat): int {
    match endian % 4
    case 0 => Number(b0, b1, b2, b3)
    case 1 => Number(b1, b0, b3, b2)
    case 2 => Number(b3, b2, b1, b0)
    case _ => Number(b2, b3, b0, b1)
  }

  lemma {:induction false} HalfOfBytes(b0: Byte, b1: Byte)
    ensures ((b0 as bv16) | ((b1 as bv16) << 8)) as int == b0 as int + 0x100 * (b1 as int)
  {}

  lemma {:induction false} WordOfBytes(b0: Byte, b1: Byte, b2: Byte, b3: Byte)
    ensures ((b0 as bv32) | ((b1 as bv32) << 8) | ((b2 as bv32) << 16) | ((b3 as bv32) << 24)) as int
         == b0 as int + 0x100 * (b1 as int) + 0x1_0000 * (b2 as int) + 0x100_0000 * (b3 as int)
  {}

  lemma {:induction false} HalfAsNumber(b0: Byte, b1: Byte, v: bv16)
    requires v == (b0 as bv16) | ((b1 as bv16) << 8)
    ensures v as int == b0 as int + 0x100 * (b1 as int)
  {
    HalfOfBytes(b0, b1);
  }

  lemma {:induction false} WordAsNumber(b0: Byte, b1: Byte, b2: Byte, b3: Byte, v: bv32)
    requires v == (b0 as bv32) | ((b1 as bv32) << 8) | ((b2 as bv32) << 16) | ((b3 as bv32) << 24)
    ensures v as int == b0 as int + 0x100 * (b1 as int) + 0x1_0000 * (b2 as int) + 0x100_0000 * (b3 as int)
  {
    WordOfBytes(b0, b1, b2, b3);
  }

  lemma {:induction false} HalfPermutes(b0: Byte, b1: Byte, endian: nat, v: bv16)
    requires v == SwapGpuIndex16(LoadHalf(b0, b1), endian)
    ensures endian == 1 || endian == 2 ==> v == (b1 as bv16) | ((b0 as bv16) << 8)
    ensures endian != 1 && endian != 2 ==> v == (b0 as bv16) | ((b1 as bv16) << 8)
  {}

  lemma {:induction false} Widened(v: bv16, w: bv32)
    requires w == v as bv32
    ensures w as int == v as int
  {}

  /** A 16-bit index is the number its two bytes spell, the high byte first in modes 1 and 2 and last in the others. */
  lemma {:induction false} HalfIsNumber(b0: Byte, b1: Byte, endian: nat, v: bv16, w: bv32)
    requires v == SwapGpuIndex16(LoadHalf(b0, b1), endian) && w == v as bv32
    ensures w as int == SpelledHalf(b0, b1, endian)
  {
    HalfPermutes(b0, b1, endian, v);
    Widened(v, w);
    if endian == 1 || endian == 2 {
      HalfAsNumber(b1, b0, v);
    } else {
      HalfAsNumber(b0, b1, v);
    }
  }

  lemma {:induction false} WordPermutes(b0: Byte, b1: Byte, b2: Byte, b3: Byte, endian: nat, v: bv32)
    requires v == SwapGpuWord32(LoadWord(b0, b1, b2, b3), endian)
    ensures v == match endian % 4 {
                   case 0 => LoadWord(b0, b1, b2, b3)
                   case 1 => LoadWord(b1, b0, b3, b2)
                   case 2 => LoadWord(b3, b2, b1, b0)
                   case _ => LoadWord(b2, b3, b0, b1)
                 }
  {
    SwapsPermuteBytes(b0, b1, b2, b3, endian);
  }

  lemma {:induction false} LoadedIsNumber(b0: Byte, b1: Byte, b2: Byte, b3: Byte, v: bv32)
    requires v == LoadWord(b0, b1, b2, b3)
    ensures v as int == Number(b0, b1, b2, b3)
  {
    WordAsNumber(b0, b1, b2, b3, v);
  }

  /** A 32-bit index is the number its four bytes spell in the mode's order. */
  lemma {:induction false} WordIsNumber(b0: Byte, b1: Byte, b2: Byte, b3: Byte, endian: nat, v: bv32)
    requires v == SwapGpuWord32(LoadWord(b0, b1, b2, b3), endian)
    ensures v as int == SpelledWord(b0, b1, b2, b3, endian)
  {
    WordPermutes(b0, b1, b2, b3, endian, v);
    match endian % 4
    case 0 => LoadedIsNumber(b0, b1, b2, b3, v);
    case 1 => LoadedIsNumber(b1, b0, b3, b2, v);
    case 2 => LoadedIsNumber(b3, b2, b1, b0, v);
    case _ => LoadedIsNumber(b2, b3, b0, b1, v);
  }

  function WordsToBytes(words: seq<bv32>): (bytes: seq<Byte>)
    ensures |bytes| == 4 * |words|
  {
    if words == [] then [] else WordsToBytes(words[..|words| - 1]) + StoreWord(words[|words| - 1])
  }

  /** What a draw reading 32-bit indices from the buffer fetches at index i. */
  function FetchIndex(bytes: seq<Byte>, i: nat): bv32
    requires 4 * i + 4 <= |bytes|
  {
    LoadWord(bytes[4 * i], bytes[4 * i + 1], bytes[4 * i + 2], bytes[4 * i + 3])
  }

  lemma {:induction false} FetchReadsWord(words: seq<bv32>, i: nat)
    requires i < |words|
    ensures FetchIndex(WordsToBytes(words), i) == words[i]
  {
    var n := |words| - 1;
    if i < n {
      FetchReadsWord(words[..n], i);
    } else {
      LoadsBack(words[n]);
    }
  }

  // ---------------------------------------------------------------- the reference conversion

  /** What the renderer knows of guest memory: its bytes, and how many of them are mirrored. */
  datatype Guest = Guest(memory: seq<Byte>, mirrorBytes: nat)

  /** `registers` stands for the rest of the draw's state, which indices do not depend on. */
  datatype DrawItem = DrawItem(
    indexGuestBase: nat, indexCount: nat, indexEndian: nat, primType: nat,
    indexed: bool, indexIs32: bool, registers: nat)

  const QuadList := 13

  predicate InRange(g: Guest, d: DrawItem) {
    d.indexGuestBase + d.indexCount * (if d.indexIs32 then 4 else 2) <= g.mirrorBytes
  }

  /** The guest's i-th index as a 32-bit host value; zero when the fetch would leave the mirror. */
  function GuestIndex(g: Guest, d: DrawItem, i: nat): bv32
    requires g.mirrorBytes <= |g.memory| && i < d.indexCount
  {
    if !InRange(g, d) then 0
    else if d.indexIs32 then
      var at := d.indexGuestBase + i * 4;
      SwapGpuWord32(LoadWord(g.memory[at], g.memory[at + 1], g.memory[at + 2], g.memory[at + 3]), d.indexEndian)
    else
      var at := d.indexGuestBase + i * 2;
      SwapGpuIndex16(LoadHalf(g.memory[at], g.memory[at + 1]), d.indexEndian) as bv32
  }

  /** The number that the guest's bytes spell for the i-th index of a draw that stays in the mirror. */
  function SpelledIndex(g: Guest, d: DrawItem, i: nat): int
    requires g.mirrorBytes <= |g.memory| && i < d.indexCount
    requires d.indexGuestBase + d.indexCount * (if d.indexIs32 then 4 else 2) <= g.mirrorBytes
  {
    if d.indexIs32 then
      var at := d.indexGuestBase + i * 4;
      SpelledWord(g.memory[at], g.memory[at + 1], g.memory[at + 2], g.memory[at + 3], d.indexEndian)
    else
      var at := d.indexGuestBase + i * 2;
      SpelledHalf(g.memory[at], g.memory[at + 1], d.indexEndian)
  }

  /** Inside the mirror an index is the number its bytes spell; a draw that would leave the mirror reads zeros. */
  lemma {:induction false} IndexIsSpelled(g: Guest, d: DrawItem, i: nat)
    requires g.mirrorBytes <= |g.memory| && i < d.indexCount
    ensures d.indexGuestBase + d.indexCount * (if d.indexIs32 then 4 else 2) <= g.mirrorBytes ==>
              GuestIndex(g, d, i) as int == SpelledIndex(g, d, i)
    ensures d.indexGuestBase + d.indexCount * (if d.indexIs32 then 4 else 2) > g.mirrorBytes ==>
              GuestIndex(g, d, i) == 0
  {
    if InRange(g, d) {
      if d.indexIs32 {
        WideIndexIsSpelled(g, d, i);
      } else {
        NarrowIndexIsSpelled(g, d, i);
      }
    }
  }

  lemma {:induction false} WideIndexIsSpelled(g: Guest, d: DrawItem, i: nat)
    requires g.mirrorBytes <= |g.memory| && i < d.indexCount && InRange(g, d) && d.indexIs32
    ensures GuestIndex(g, d, i) as int == SpelledIndex(g, d, i)
  {
    var at := d.indexGuestBase + i * 4;
    WordIsNumber(g.memory[at], g.memory[at + 1], g.memory[at + 2], g.memory[at + 3], d.indexEndian, GuestIndex(g, d, i));
  }

  lemma {:induction false} NarrowIndexIsSpelled(g: Guest, d: DrawItem, i: nat)
    requires g.mirrorBytes <= |g.memory| && i < d.indexCount && InRange(g, d) && !d.indexIs32
    ensures GuestIndex(g, d, i) as int == SpelledIndex(g, d, i)
  {
    var at := d.indexGuestBase + i * 2;
    var v := SwapGpuIndex16(LoadHalf(g.memory[at], g.memory[at + 1]), d.indexEndian);
    HalfIsNumber(g.memory[at], g.memory[at + 1], d.indexEndian, v, GuestIndex(g, d, i));
  }

  /** The index of the draw's i-th vertex, before any topology change. */
  function SourceIndex(g: Guest, d: DrawItem, i: nat): bv32
    requires g.mirrorBytes <= |g.memory| && i < d.indexCount < 0x1_0000_0000
  {
    if d.indexed then GuestIndex(g, d, i) else i as bv32
  }

  /** Corner of a quad that each of its two triangles' vertices takes: 0 1 2, 0 2 3. */
  function QuadCorner(k: nat): nat
    requires k < 6
  {
    [0, 1, 2, 0, 2, 3][k]
  }

  predicate NeedsBuffer(d: DrawItem) {
    d.indexed || d.primType == QuadList
  }

  /** What the draw call should fetch at each index: the conversion with no arena and no table. */
  function Reference(g: Guest, d: DrawItem): seq<bv32>
    requires g.mirrorBytes <= |g.memory| && d.indexCount < 0x1_0000_0000
  {
    if d.primType == QuadList then
      seq<bv32>(d.indexCount / 4 * 6, k requires 0 <= k < d.indexCount / 4 * 6 =>
        SourceIndex(g, d, k / 6 * 4 + QuadCorner(k % 6)))
    else if d.indexCount == 0 then [0]
    else seq<bv32>(d.indexCount, i requires 0 <= i < d.indexCount => GuestIndex(g, d, i))
  }

  /** The i-th vertex's index: the guest's number, zero past the mirror, or the vertex's own place in a draw without indices. */
  predicate NamesVertex(g: Guest, d: DrawItem, i: nat, v: bv32)
    requires g.mirrorBytes <= |g.memory| && i < d.indexCount < 0x1_0000_0000
  {
    if !d.indexed then v == i as bv32
    else if d.indexGuestBase + d.indexCount * (if d.indexIs32 then 4 else 2) > g.mirrorBytes then v == 0
    else v as int == SpelledIndex(g, d, i)
  }

  lemma {:induction false} SourceNamesVertex(g: Guest, d: DrawItem, i: nat)
    requires g.mirrorBytes <= |g.memory| && i < d.indexCount < 0x1_0000_0000
    ensures NamesVertex(g, d, i, SourceIndex(g, d, i))
  {
    IndexIsSpelled(g, d, i);
  }

  /**
   * A quad's two triangles share its first and third corner: its six indices are those of its vertices
   * 0 1 2 and 0 2 3. Vertices behind the last whole quad are dropped.
   */
  lemma {:induction false} QuadIndices(g: Guest, d: DrawItem, q: nat, j: nat)
    requires g.mirrorBytes <= |g.memory| && d.indexCount < 0x1_0000_0000 && d.primType == 13
    ensures |Reference(g, d)| == 6 * (d.indexCount / 4)
    ensures 4 * q + 4 <= d.indexCount && j < 6 ==>
              6 * q + j < |Reference(g, d)|
              && NamesVertex(g, d, 4 * q + [0, 1, 2, 0, 2, 3][j], Reference(g, d)[6 * q + j])
  {
    if 4 * q + 4 <= d.indexCount && j < 6 {
      CornerEntry(g, d, q, j);
      SourceNamesVertex(g, d, 4 * q + QuadCorner(j));
    }
  }

  lemma {:induction false} CornerEntry(g: Guest, d: DrawItem, q: nat, j: nat)
    requires g.mirrorBytes <= |g.memory| && 4 * q + 4 <= d.indexCount < 0x1_0000_0000 && d.primType == QuadList && j < 6
    ensures QuadCorner(j) == [0, 1, 2, 0, 2, 3][j] < 4
    ensures 6 * q + j < |Reference(g, d)| && Reference(g, d)[6 * q + j] == SourceIndex(g, d, 4 * q + QuadCorner(j))
  {
    SplitsBySix(q, j, d.indexCount);
    QuadEntry(g, d, 6 * q + j, q, j);
  }

  lemma {:induction false} QuadEntry(g: Guest, d: DrawItem, k: nat, q: nat, j: nat)
    requires g.mirrorBytes <= |g.memory| && d.indexCount < 0x1_0000_0000 && d.primType == QuadList
    requires k < d.indexCount / 4 * 6 && k / 6 == q && k % 6 == j && q * 4 + QuadCorner(j) < d.indexCount
    ensures k < |Reference(g, d)| && Reference(g, d)[k] == SourceIndex(g, d, q * 4 + QuadCorner(j))
  {}

  lemma {:induction false} SplitsBySix(q: nat, j: nat, count: nat)
    requires j < 6 && 4 * q + 4 <= count
    ensures (6 * q + j) / 6 == q && (6 * q + j) % 6 == j && 6 * q + j < count / 4 * 6
  {}

  /** Any other indexed draw keeps its indices in order; one without any gets a single zero. */
  lemma {:induction false} PlainIndices(g: Guest, d: DrawItem, i: nat)
    requires g.mirrorBytes <= |g.memory| && d.indexCount < 0x1_0000_0000 && d.primType != 13 && d.indexed
    ensures d.indexCount == 0 ==> Reference(g, d) == [0]
    ensures d.indexCount > 0 ==> |Reference(g, d)| == d.indexCount
    ensures i < d.indexCount ==> NamesVertex(g, d, i, Reference(g, d)[i])
  {
    if i < d.indexCount {
      SourceNamesVertex(g, d, i);
    }
  }

  // ---------------------------------------------------------------- conversion and reuse, as functions

  datatype IndexResult = Ok | EmptyQuad | ArenaFull

  datatype PreparedIndices = PreparedIndices(place: Place, count: nat, indexed: bool)

  const NoPlace := Place(NoBuffer, 0)

  datatype Key = Key(
    guestBase: nat, count: nat, endian: nat, primitive: nat, indexed: bool, is32: bool)

  function MakeKey(d: DrawItem): Key {
    Key(d.indexGuestBase, d.indexCount, d.indexEndian, d.primType, d.indexed, d.indexIs32)
  }

  function Converted(s: Store, g: Guest, d: DrawItem, canAllocate: bool): (IndexResult, PreparedIndices)
    requires g.mirrorBytes <= |g.memory| && d.indexCount < 0x1_0000_0000
  {
    if d.primType == QuadList && d.indexCount / 4 == 0 then
      (EmptyQuad, PreparedIndices(NoPlace, d.indexCount, d.indexed))
    else if !NeedsBuffer(d) then (Ok, PreparedIndices(NoPlace, d.indexCount, d.indexed))
    else
      var words := Reference(g, d);
      match MadeAt(s, 4 * |words|, 4, canAllocate)
      case None => (ArenaFull, PreparedIndices(NoPlace, d.indexCount, d.indexed))
      case Some(place) =>
        (Ok, if d.primType == QuadList then PreparedIndices(place, |words|, true)
             else PreparedIndices(place, d.indexCount, d.indexed))
  }

  function AfterConvert(s: Store, g: Guest, d: DrawItem, canAllocate: bool): Store
    requires g.mirrorBytes <= |g.memory| && d.indexCount < 0x1_0000_0000
  {
    if (d.primType == QuadList && d.indexCount / 4 == 0) || !NeedsBuffer(d) then s
    else AfterMakeIndexBuffer(s, WordsToBytes(Reference(g, d)), canAllocate)
  }

  type Table = map<Key, PreparedIndices>

  function PrepareAnswer(s: Store, t: Table, g: Guest, d: DrawItem, canAllocate: bool): (IndexResult, PreparedIndices)
    requires g.mirrorBytes <= |g.memory| && d.indexCount < 0x1_0000_0000
  {
    if NeedsBuffer(d) && MakeKey(d) in t then (Ok, t[MakeKey(d)]) else Converted(s, g, d, canAllocate)
  }

  function StoreAfterPrepare(s: Store, t: Table, g: Guest, d: DrawItem, canAllocate: bool): Store
    requires g.mirrorBytes <= |g.memory| && d.indexCount < 0x1_0000_0000
  {
    if NeedsBuffer(d) && MakeKey(d) in t then s else AfterConvert(s, g, d, canAllocate)
  }

  function TableAfterPrepare(s: Store, t: Table, g: Guest, d: DrawItem, canAllocate: bool): Table
    requires g.mirrorBytes <= |g.memory| && d.indexCount < 0x1_0000_0000
  {
    if !NeedsBuffer(d) || MakeKey(d) in t then t
    else
      var (result, out) := Converted(s, g, d, canAllocate);
      if result == Ok then t[MakeKey(d) := out] else t
  }

  // ---------------------------------------------------------------- the code

  function Resize(v: seq<bv32>, n: nat): (r: seq<bv32>)
    ensures |r| == n
  {
    if n <= |v| then v[..n] else v + seq<bv32>(n - |v|, _ => 0)
  }

  method ReadGuestIndices(arena: FrameArena, g: Guest, d: DrawItem, count: nat)
    requires g.mirrorBytes <= |g.memory| && count == d.indexCount <= |arena.indexSource|
    modifies arena`indexSource
    ensures |arena.indexSource| == |old(arena.indexSource)|
    ensures forall i :: 0 <= i < count ==> arena.indexSource[i] == GuestIndex(g, d, i)
    ensures d.indexGuestBase + count * (if d.indexIs32 then 4 else 2) <= g.mirrorBytes ==>
              forall i :: 0 <= i < count ==> arena.indexSource[i] as int == SpelledIndex(g, d, i)
    ensures d.indexGuestBase + count * (if d.indexIs32 then 4 else 2) > g.mirrorBytes ==>
              forall i :: 0 <= i < count ==> arena.indexSource[i] == 0
    ensures forall i :: count <= i < |arena.indexSource| ==> arena.indexSource[i] == old(arena.indexSource)[i]
  {
    var width := if d.indexIs32 then 4 else 2;
    var inRange := d.indexGuestBase + count * width <= g.mirrorBytes;
    for i := 0 to count
      invariant |arena.indexSource| == |old(arena.indexSource)|
      invariant forall k :: 0 <= k < i ==> arena.indexSource[k] == GuestIndex(g, d, k)
      invariant forall k :: i <= k < |arena.indexSource| ==> arena.indexSource[k] == old(arena.indexSource)[k]
    {
      var v: bv32 := 0;
      if inRange && d.indexIs32 {
        var at := d.indexGuestBase + i * 4;
        v := SwapGpuWord32(LoadWord(g.memory[at], g.memory[at + 1], g.memory[at + 2], g.memory[at + 3]), d.indexEndian);
      } else if inRange {
        var at := d.indexGuestBase + i * 2;
        v := SwapGpuIndex16(LoadHalf(g.memory[at], g.memory[at + 1]), d.indexEndian) as bv32;
      }
      arena.indexSource := arena.indexSource[i := v];
    }
    forall i | 0 <= i < count
      ensures InRange(g, d) ==> arena.indexSource[i] as int == SpelledIndex(g, d, i)
    {
      IndexIsSpelled(g, d, i);
    }
  }

  /** The vertices of a quad list in submission order, over whatever the scratch held before. */
  method ReadQuadSource(arena: FrameArena, g: Guest, d: DrawItem)
    requires g.mirrorBytes <= |g.memory| && d.indexCount < 0x1_0000_0000
    modifies arena`indexSource
    ensures |arena.indexSource| == d.indexCount
    ensures forall i :: 0 <= i < d.indexCount ==> arena.indexSource[i] == SourceIndex(g, d, i)
  {
    arena.indexSource := Resize(arena.indexSource, d.indexCount);
    if d.indexed {
      ReadGuestIndices(arena, g, d, d.indexCount);
    } else {
      for i := 0 to d.indexCount
        invariant |arena.indexSource| == d.indexCount
        invariant forall k :: 0 <= k < i ==> arena.indexSource[k] == SourceIndex(g, d, k)
      {
        arena.indexSource := arena.indexSource[i := i as bv32];
      }
    }
  }

  /** Triangle vertex k of a quad list, from the quads' own vertices. */
  function TriangleVertex(src: seq<bv32>, k: nat): bv32
    requires k < |src| / 4 * 6
  {
    src[k / 6 * 4 + QuadCorner(k % 6)]
  }

  lemma {:induction false} QuadTriangles(src: seq<bv32>, q: nat, j: nat)
    requires q < |src| / 4 && j < 6
    ensures q * 6 + j < |src| / 4 * 6
    ensures TriangleVertex(src, q * 6 + j) == src[q * 4 + QuadCorner(j)]
  {
    assert (q * 6 + j) / 6 == q && (q * 6 + j) % 6 == j;
  }

  method ExpandQuads(arena: FrameArena)
    modifies arena`indexExpanded
    ensures |arena.indexExpanded| == |arena.indexSource| / 4 * 6
    ensures forall k :: 0 <= k < |arena.indexExpanded| ==>
              arena.indexExpanded[k] == TriangleVertex(arena.indexSource, k)
  {
    var quads := |arena.indexSource| / 4;
    ghost var src := arena.indexSource;
    arena.indexExpanded := Resize(arena.indexExpanded, quads * 6);
    for q := 0 to quads
      invariant |arena.indexExpanded| == quads * 6
      invariant forall k :: 0 <= k < q * 6 ==> arena.indexExpanded[k] == TriangleVertex(src, k)
    {
      var v := arena.indexSource[q * 4..q * 4 + 4];
      ghost var before := arena.indexExpanded;
      arena.indexExpanded := arena.indexExpanded[..q * 6] + [v[0], v[1], v[2], v[0], v[2], v[3]] + arena.indexExpanded[q * 6 + 6..];
      forall k | 0 <= k < q * 6 + 6
        ensures arena.indexExpanded[k] == TriangleVertex(src, k)
      {
        if k < q * 6 {
          assert arena.indexExpanded[k] == before[k];
        } else {
          QuadTriangles(src, q, k - q * 6);
        }
      }
    }
  }

  lemma {:induction false} VertexIsReference(src: seq<bv32>, g: Guest, d: DrawItem, k: nat)
    requires g.mirrorBytes <= |g.memory| && d.indexCount < 0x1_0000_0000 && d.primType == QuadList
    requires |src| == d.indexCount && k < |src| / 4 * 6
    requires forall i :: 0 <= i < d.indexCount ==> src[i] == SourceIndex(g, d, i)
    ensures TriangleVertex(src, k) == Reference(g, d)[k]
  {
    var i := k / 6 * 4 + QuadCorner(k % 6);
    assert 0 <= i < d.indexCount;
    assert src[i] == SourceIndex(g, d, i);
  }

  lemma {:induction false} ExpandedIsReference(src: seq<bv32>, expanded: seq<bv32>, g: Guest, d: DrawItem)
    requires g.mirrorBytes <= |g.memory| && d.indexCount < 0x1_0000_0000 && d.primType == QuadList
    requires |src| == d.indexCount && |expanded| == |src| / 4 * 6
    requires forall i :: 0 <= i < d.indexCount ==> src[i] == SourceIndex(g, d, i)
    requires forall k :: 0 <= k < |expanded| ==> expanded[k] == TriangleVertex(src, k)
    ensures expanded == Reference(g, d)
  {
    var words := Reference(g, d);
    assert |words| == |expanded|;
    forall k | 0 <= k < |expanded|
      ensures expanded[k] == words[k]
    {
      VertexIsReference(src, g, d, k);
    }
  }

  /** The scratch ends up holding the conversion, whatever an earlier draw left there. */
  method FillScratch(arena: FrameArena, g: Guest, d: DrawItem) returns (words: seq<bv32>)
    requires g.mirrorBytes <= |g.memory| && d.indexCount < 0x1_0000_0000 && NeedsBuffer(d)
    modifies arena`indexSource, arena`indexExpanded
    ensures words == Reference(g, d)
  {
    if d.primType == QuadList {
      ReadQuadSource(arena, g, d);
      ExpandQuads(arena);
      ExpandedIsReference(arena.indexSource, arena.indexExpanded, g, d);
      return arena.indexExpanded;
    }
    var n := if d.indexCount == 0 then 1 else d.indexCount;
    arena.indexSource := Resize(arena.indexSource, n);
    if d.indexCount == 0 {
      arena.indexSource := arena.indexSource[0 := 0];
    }
    ReadGuestIndices(arena, g, d, d.indexCount);
    words := arena.indexSource;
    assert words == Reference(g, d);
  }

  method ConvertIndices(arena: FrameArena, g: Guest, d: DrawItem, canAllocate: bool)
    returns (result: IndexResult, out: PreparedIndices)
    requires arena.Valid()
    requires g.mirrorBytes <= |g.memory| && d.indexCount < 0x1_0000_0000
    modifies arena`indexSource, arena`indexExpanded, arena`cursor, arena`wanted, arena`overflows,
             arena`keepBuffers, arena.arena
    ensures arena.Valid()
    ensures (result, out) == Converted(old(arena.Contents()), g, d, canAllocate)
    ensures arena.Contents() == AfterConvert(old(arena.Contents()), g, d, canAllocate)
    ensures result == EmptyQuad <==> d.primType == 13 && d.indexCount < 4
    ensures result == EmptyQuad || (d.primType != 13 && !d.indexed) ==> arena.Contents() == old(arena.Contents())
    ensures result == Ok ==>
              && out.indexed == (d.indexed || d.primType == 13)
              && out.count == if d.primType == 13 then 6 * (d.indexCount / 4) else d.indexCount
  {
    out := PreparedIndices(NoPlace, d.indexCount, d.indexed);
    if d.primType == QuadList && d.indexCount / 4 == 0 {
      return EmptyQuad, out;
    }
    if !NeedsBuffer(d) {
      return Ok, out;
    }
    var words := FillScratch(arena, g, d);
    assert arena.Contents() == old(arena.Contents());
    var place := arena.MakeIndexBuffer(WordsToBytes(words), canAllocate);
    if place.None? {
      return ArenaFull, out;
    }
    out := if d.primType == QuadList then PreparedIndices(place.value, |words|, true)
           else PreparedIndices(place.value, d.indexCount, d.indexed);
    return Ok, out;
  }

  class IndexPreparer {
    var reuse: Table
    var lookups: nat
    var hits: nat
    var builds: nat

    constructor ()
      ensures reuse == map[] && lookups == hits == builds == 0
    {
      reuse, lookups, hits, builds := map[], 0, 0, 0;
    }

    method Prepare(arena: FrameArena, g: Guest, d: DrawItem, canAllocate: bool)
      returns (result: IndexResult, out: PreparedIndices)
      requires arena.Valid()
      requires g.mirrorBytes <= |g.memory| && d.indexCount < 0x1_0000_0000
      modifies this, arena`indexSource, arena`indexExpanded, arena`cursor, arena`wanted, arena`overflows,
               arena`keepBuffers, arena.arena
      ensures arena.Valid()
      ensures (result, out) == PrepareAnswer(old(arena.Contents()), old(reuse), g, d, canAllocate)
      ensures arena.Contents() == StoreAfterPrepare(old(arena.Contents()), old(reuse), g, d, canAllocate)
      ensures reuse == TableAfterPrepare(old(arena.Contents()), old(reuse), g, d, canAllocate)
      ensures lookups - old(lookups) == (hits - old(hits)) + (builds - old(builds))
              == if NeedsBuffer(d) then 1 else 0
      ensures hits - old(hits) == if NeedsBuffer(d) && MakeKey(d) in old(reuse) then 1 else 0
    {
      if !(d.indexed || d.primType == QuadList) {
        result, out := ConvertIndices(arena, g, d, canAllocate);
        return;
      }
      lookups := lookups + 1;
      if MakeKey(d) in reuse {
        hits := hits + 1;
        return Ok, reuse[MakeKey(d)];
      }
      builds := builds + 1;
      result, out := ConvertIndices(arena, g, d, canAllocate);
      if result == Ok {
        reuse := reuse[MakeKey(d) := out];
      }
    }
  }

  // ---------------------------------------------------------------- what reuse preserves

  /** `out` names a range that holds exactly the draw's reference conversion. */
  ghost predicate Serves(s: Store, g: Guest, d: DrawItem, out: PreparedIndices)
    requires g.mirrorBytes <= |g.memory| && d.indexCount < 0x1_0000_0000
  {
    if !NeedsBuffer(d) then out == PreparedIndices(NoPlace, d.indexCount, false)
    else
      var words := Reference(g, d);
      && out.indexed
      && out.count == (if d.primType == QuadList then d.indexCount / 4 * 6 else d.indexCount)
      && BytesAt(s, out.place, 4 * |words|) == Some(WordsToBytes(words))
  }

  /** Everything in the table serves every draw that has its key. */
  ghost predicate TableServes(s: Store, t: Table, g: Guest)
    requires g.mirrorBytes <= |g.memory|
  {
    forall d: DrawItem :: d.indexCount < 0x1_0000_0000 && NeedsBuffer(d) && MakeKey(d) in t ==>
                            Serves(s, g, d, t[MakeKey(d)])
  }

  lemma {:induction false} SourceIgnoresRegisters(g: Guest, d: DrawItem, registers: nat, i: nat)
    requires g.mirrorBytes <= |g.memory| && i < d.indexCount < 0x1_0000_0000
    ensures SourceIndex(g, d, i) == SourceIndex(g, d.(registers := registers), i)
    ensures GuestIndex(g, d, i) == GuestIndex(g, d.(registers := registers), i)
  {}

  lemma {:induction false} QuadsIgnoreRegisters(g: Guest, d: DrawItem, registers: nat, k: nat)
    requires g.mirrorBytes <= |g.memory| && d.indexCount < 0x1_0000_0000
    requires d.primType == QuadList && k < d.indexCount / 4 * 6
    ensures Reference(g, d)[k] == Reference(g, d.(registers := registers))[k]
  {
    var vertex := k / 6 * 4 + QuadCorner(k % 6);
    assert vertex < d.indexCount;
    SourceIgnoresRegisters(g, d, registers, vertex);
  }

  lemma {:induction false} ReferenceIgnoresRegisters(g: Guest, d: DrawItem, registers: nat)
    requires g.mirrorBytes <= |g.memory| && d.indexCount < 0x1_0000_0000
    ensures Reference(g, d) == Reference(g, d.(registers := registers))
  {
    var other := d.(registers := registers);
    assert |Reference(g, d)| == |Reference(g, other)|;
    forall k | 0 <= k < |Reference(g, d)|
      ensures Reference(g, d)[k] == Reference(g, other)[k]
    {
      if d.primType == QuadList {
        QuadsIgnoreRegisters(g, d, registers, k);
      } else if d.indexCount != 0 {
        SourceIgnoresRegisters(g, d, registers, k);
      }
    }
  }

  /** The key is complete: draws with the same key have the same conversion. */
  lemma {:induction false} KeyIsComplete(g: Guest, d: DrawItem, d': DrawItem, s: Store, out: PreparedIndices)
    requires g.mirrorBytes <= |g.memory| && d.indexCount < 0x1_0000_0000
    requires MakeKey(d) == MakeKey(d')
    ensures Reference(g, d) == Reference(g, d')
    ensures Serves(s, g, d, out) == Serves(s, g, d', out)
  {
    assert d' == d.(registers := d'.registers);
    ReferenceIgnoresRegisters(g, d, d'.registers);
  }

  lemma {:induction false} ConvertServes(s: Store, g: Guest, d: DrawItem, canAllocate: bool)
    requires g.mirrorBytes <= |g.memory| && d.indexCount < 0x1_0000_0000
    ensures Extends(s, AfterConvert(s, g, d, canAllocate))
    ensures Converted(s, g, d, canAllocate).0 == Ok ==>
              Serves(AfterConvert(s, g, d, canAllocate), g, d, Converted(s, g, d, canAllocate).1)
  {
    if NeedsBuffer(d) && !(d.primType == QuadList && d.indexCount / 4 == 0) {
      var data := WordsToBytes(Reference(g, d));
      MakeExtends(s, data, 4, |data|, canAllocate);
      if MadeAt(s, |data|, 4, canAllocate).Some? {
        MadeReadsBack(s, data, 4, |data|, canAllocate);
        assert data[..|data|] == data;
      }
    }
  }

  lemma {:induction false} TableSurvives(s: Store, s': Store, t: Table, g: Guest)
    requires g.mirrorBytes <= |g.memory| && TableServes(s, t, g) && Extends(s, s')
    ensures TableServes(s', t, g)
  {
    forall d: DrawItem | d.indexCount < 0x1_0000_0000 && NeedsBuffer(d) && MakeKey(d) in t
      ensures Serves(s', g, d, t[MakeKey(d)])
    {
      BytesSurvive(s, s', t[MakeKey(d)].place, 4 * |Reference(g, d)|);
    }
  }

  lemma {:induction false} PrepareServes(s: Store, t: Table, g: Guest, d: DrawItem, canAllocate: bool)
    requires g.mirrorBytes <= |g.memory| && d.indexCount < 0x1_0000_0000
    requires TableServes(s, t, g)
    ensures var s' := StoreAfterPrepare(s, t, g, d, canAllocate);
            && Extends(s, s')
            && TableServes(s', TableAfterPrepare(s, t, g, d, canAllocate), g)
            && var (result, out) := PrepareAnswer(s, t, g, d, canAllocate);
               result == Ok ==> Serves(s', g, d, out)
  {
    ConvertServes(s, g, d, canAllocate);
    var s' := StoreAfterPrepare(s, t, g, d, canAllocate);
    TableSurvives(s, s', t, g);
    var t' := TableAfterPrepare(s, t, g, d, canAllocate);
    forall d': DrawItem | d'.indexCount < 0x1_0000_0000 && NeedsBuffer(d') && MakeKey(d') in t'
      ensures Serves(s', g, d', t'[MakeKey(d')])
    {
      if MakeKey(d') !in t {
        KeyIsComplete(g, d, d', s', t'[MakeKey(d')]);
      }
    }
  }

  // ---------------------------------------------------------------- a whole frame

  /** What a frame asks of the arena, in any order; `canAllocate` is the device's answer to a fallback. */
  datatype Ask =
    | PrepareDraw(draw: DrawItem, canAllocate: bool)
    | Uniforms(data: seq<Byte>, size: nat, alignment: nat, canAllocate: bool)

  predicate Sensible(ask: Ask) {
    match ask
    case PrepareDraw(d, _) => d.indexCount < 0x1_0000_0000
    case Uniforms(data, size, alignment, _) => alignment > 0 && UboBytes(size) <= |data|
  }

  datatype Frame = Frame(store: Store, table: Table, answers: seq<(DrawItem, PreparedIndices)>)

  function AfterAsk(f: Frame, g: Guest, ask: Ask): Frame
    requires g.mirrorBytes <= |g.memory| && Sensible(ask)
  {
    match ask
    case Uniforms(data, size, alignment, canAllocate) =>
      f.(store := AfterMakeUbo(f.store, data, size, alignment, canAllocate))
    case PrepareDraw(d, canAllocate) =>
      var (result, out) := PrepareAnswer(f.store, f.table, g, d, canAllocate);
      Frame(StoreAfterPrepare(f.store, f.table, g, d, canAllocate),
            TableAfterPrepare(f.store, f.table, g, d, canAllocate),
            if result == Ok then f.answers + [(d, out)] else f.answers)
  }

  function AfterAsks(f: Frame, g: Guest, asks: seq<Ask>): Frame
    requires g.mirrorBytes <= |g.memory| && forall i :: 0 <= i < |asks| ==> Sensible(asks[i])
    decreases |asks|
  {
    if asks == [] then f else AfterAsks(AfterAsk(f, g, asks[0]), g, asks[1..])
  }

  ghost predicate FrameServes(f: Frame, g: Guest)
    requires g.mirrorBytes <= |g.memory|
  {
    && TableServes(f.store, f.table, g)
    && forall i :: 0 <= i < |f.answers| ==>
         f.answers[i].0.indexCount < 0x1_0000_0000 && Serves(f.store, g, f.answers[i].0, f.answers[i].1)
  }

  lemma {:induction false} ServesSurvives(s: Store, s': Store, g: Guest, d: DrawItem, out: PreparedIndices)
    requires g.mirrorBytes <= |g.memory| && d.indexCount < 0x1_0000_0000
    requires Serves(s, g, d, out) && Extends(s, s')
    ensures Serves(s', g, d, out)
  {
    if NeedsBuffer(d) {
      BytesSurvive(s, s', out.place, 4 * |Reference(g, d)|);
    }
  }

  lemma {:induction false} AskServes(f: Frame, g: Guest, ask: Ask)
    requires g.mirrorBytes <= |g.memory| && Sensible(ask) && FrameServes(f, g)
    ensures FrameServes(AfterAsk(f, g, ask), g)
  {
    var f' := AfterAsk(f, g, ask);
    match ask {
      case Uniforms(data, size, alignment, canAllocate) =>
        MakeExtends(f.store, data[..UboBytes(size)], alignment, size, canAllocate);
        TableSurvives(f.store, f'.store, f.table, g);
      case PrepareDraw(d, canAllocate) =>
        PrepareServes(f.store, f.table, g, d, canAllocate);
    }
    forall i | 0 <= i < |f'.answers|
      ensures f'.answers[i].0.indexCount < 0x1_0000_0000
      ensures Serves(f'.store, g, f'.answers[i].0, f'.answers[i].1)
    {
      if i < |f.answers| {
        assert f'.answers[i] == f.answers[i];
        ServesSurvives(f.store, f'.store, g, f.answers[i].0, f.answers[i].1);
      }
    }
  }

  lemma {:induction false} AsksServe(f: Frame, g: Guest, asks: seq<Ask>)
    requires g.mirrorBytes <= |g.memory| && FrameServes(f, g)
    requires forall i :: 0 <= i < |asks| ==> Sensible(asks[i])
    ensures FrameServes(AfterAsks(f, g, asks), g)
    decreases |asks|
  {
    if asks != [] {
      AskServes(f, g, asks[0]);
      AsksServe(AfterAsk(f, g, asks[0]), g, asks[1..]);
    }
  }

  /**
   * The main result. Whatever a frame asks for, in whatever order and whichever fallbacks fail,
   * each buffer handed to a draw holds at the end of the frame, when the GPU reads it, exactly that
   * draw's conversion: index by index, whether it was converted for this draw or reused.
   */
  lemma {:induction false} ReuseRefinesConversion(s: Store, g: Guest, asks: seq<Ask>, i: nat, k: nat)
    requires g.mirrorBytes <= |g.memory|
    requires forall j :: 0 <= j < |asks| ==> Sensible(asks[j])
    requires i < |AfterAsks(Frame(s, map[], []), g, asks).answers|
    ensures var f := AfterAsks(Frame(s, map[], []), g, asks);
            var (d, out) := f.answers[i];
            && d.indexCount < 0x1_0000_0000
            && Serves(f.store, g, d, out)
            && (NeedsBuffer(d) && k < |Reference(g, d)| ==>
                  FetchIndex(BytesAt(f.store, out.place, 4 * |Reference(g, d)|).value, k) == Reference(g, d)[k])
  {
    AsksServe(Frame(s, map[], []), g, asks);
    var f := AfterAsks(Frame(s, map[], []), g, asks);
    var (d, out) := f.answers[i];
    if NeedsBuffer(d) && k < |Reference(g, d)| {
      FetchReadsWord(Reference(g, d), k);
    }
  }
}
