/**
 * The frame capture file as bytes: what each version's layout is, and the plain parser that
 * fails at the first missing field. Module CaptureFiles has the reader and writer with their
 * sticky flag; module CaptureTheorems says what survives a trip through the file.
 */
module CaptureFormat {

  type Byte = b: int | 0 <= b < 256
  type U32 = n: int | 0 <= n < 0x1_0000_0000
  type U64 = n: int | 0 <= n < 0x1_0000_0000_0000_0000
  type I64 = n: int | -0x8000_0000_0000_0000 <= n < 0x8000_0000_0000_0000

  const BlockSize: nat := 0x10000
  const NoBlob: U32 := 0xFFFF_FFFF
  const Magic: seq<Byte> := [71, 69, 65, 82, 83, 70, 82, 49]  // "GEARSFR1"
  const NewestVersion := 4

  /** No code stands for a null pointer as well as for a size of zero; the source treats them alike. */
  datatype Shader = Shader(code: seq<Byte>, hash: U64)

  const NoShader := Shader([], 0)

  datatype DrawItem = DrawItem(
    registers: seq<U32>, vs: Shader, ps: Shader,
    primType: U32, indexCount: U32, indexed: bool, indexIs32: bool, indexEndian: U32, indexGuestBase: U32)

  datatype Inputs = Inputs(
    width: U32, height: U32, mirrorBytes: U32,
    frontBufferAddress: U32, frontBufferFetch: seq<U32>,
    window: U32, sequence: I64, guest: seq<Byte>, draws: seq<DrawItem>)

  datatype Blob = Blob(hash: U64, code: seq<Byte>)

  /** What the format can count: every length fits the 32-bit field it is written in. */
  predicate Writable(x: Inputs) {
    && |x.frontBufferFetch| == 6
    && x.window <= |x.guest|
    && |x.draws| < 0x7FFF_FFFD
    && (forall d :: d in x.draws ==>
          |d.registers| < 0x1_0000_0000 && |d.vs.code| < 0x1_0000_0000 && |d.ps.code| < 0x1_0000_0000)
  }

  // ---------------------------------------------------------------- bytes and words

  function Le(n: nat, width: nat): (bytes: seq<Byte>)
    ensures |bytes| == width
  {
    if width == 0 then [] else [n % 256] + Le(n / 256, width - 1)
  }

  function FromLe(bytes: seq<Byte>): nat {
    if bytes == [] then 0 else bytes[0] + 256 * FromLe(bytes[1..])
  }

  function Word(n: U32): (bytes: seq<Byte>)
    ensures |bytes| == 4
  {
    Le(n, 4)
  }

  function Words(ns: seq<U32>): (bytes: seq<Byte>)
    ensures |bytes| == 4 * |ns|
  {
    if ns == [] then [] else Word(ns[0]) + Words(ns[1..])
  }

  /** A signed 64-bit value as two little-endian words. */
  function Low(n: I64): U32 { n % 0x1_0000_0000 }
  function High(n: I64): U32 { n / 0x1_0000_0000 % 0x1_0000_0000 }

  function JoinHalves(low: U32, high: U32): U64 {
    var h: int := high;
    low + 0x1_0000_0000 * h
  }

  function FromHalves(low: U32, high: U32): I64 {
    var u: int := JoinHalves(low, high);
    if u < 0x8000_0000_0000_0000 then u else u - 0x1_0000_0000_0000_0000
  }

  function Long(n: U64): (bytes: seq<Byte>)
    ensures |bytes| == 8
  {
    Word(n % 0x1_0000_0000) + Word(n / 0x1_0000_0000)
  }

  // ---------------------------------------------------------------- guest memory in blocks

  function BlockLength(window: nat, blockSize: nat, offset: nat): nat
    requires offset <= window
  {
    if blockSize < window - offset then blockSize else window - offset
  }

  function Block(x: Inputs, id: nat): seq<Byte>
    requires x.window <= |x.guest| && id * BlockSize < x.window
  {
    x.guest[id * BlockSize..id * BlockSize + BlockLength(x.window, BlockSize, id * BlockSize)]
  }

  predicate IsZero(bytes: seq<Byte>) {
    forall i :: 0 <= i < |bytes| ==> bytes[i] == 0
  }

  /** The blocks from `id` on that hold anything, in ascending order. */
  function BlockIds(x: Inputs, id: nat): (ids: seq<U32>)
    requires x.window <= |x.guest|
    ensures forall i :: 0 <= i < |ids| ==> id <= ids[i] && ids[i] * BlockSize < x.window
    decreases x.window - id
  {
    if id * BlockSize >= x.window then []
    else (if IsZero(Block(x, id)) then [] else [id]) + BlockIds(x, id + 1)
  }

  function Blocks(x: Inputs, ids: seq<U32>): seq<Byte>
    requires x.window <= |x.guest| && forall i :: 0 <= i < |ids| ==> ids[i] * BlockSize < x.window
  {
    if ids == [] then [] else Block(x, ids[0]) + Blocks(x, ids[1..])
  }

  // ---------------------------------------------------------------- shaders by hash

  /** Every shader slot of the frame in the order it is interned: each draw's vertex, then its pixel shader. */
  function Slots(draws: seq<DrawItem>): (slots: seq<Shader>)
    ensures |slots| == 2 * |draws|
  {
    if draws == [] then []
    else Slots(draws[..|draws| - 1]) + [draws[|draws| - 1].vs, draws[|draws| - 1].ps]
  }

  /** Where a hash is in the table; the table's length when it is not. */
  function IndexOf(blobs: seq<Blob>, hash: U64): (i: nat)
    ensures i <= |blobs|
    ensures i < |blobs| ==> blobs[i].hash == hash
    ensures forall j :: 0 <= j < i ==> blobs[j].hash != hash
  {
    if blobs == [] then 0
    else if blobs[0].hash == hash then 0
    else
      var i := IndexOf(blobs[1..], hash);
      assert forall j :: 1 <= j < i + 1 ==> blobs[j] == blobs[1..][j - 1];
      i + 1
  }

  function Interned(blobs: seq<Blob>, slot: Shader): seq<Blob> {
    if slot.code == [] || IndexOf(blobs, slot.hash) < |blobs| then blobs
    else blobs + [Blob(slot.hash, slot.code)]
  }

  /** The blob table: one entry for each distinct hash, holding the code it was first seen with. */
  function BlobTable(slots: seq<Shader>): (blobs: seq<Blob>)
    ensures |blobs| <= |slots|
  {
    if slots == [] then [] else Interned(BlobTable(slots[..|slots| - 1]), slots[|slots| - 1])
  }

  function BlobRef(blobs: seq<Blob>, slot: Shader): U32
    requires |blobs| < 0xFFFF_FFFF
  {
    if slot.code == [] then NoBlob else IndexOf(blobs, slot.hash)
  }

  function BlobBytes(b: Blob): seq<Byte>
    requires |b.code| < 0x1_0000_0000
  {
    Long(b.hash) + Word(|b.code|) + b.code
  }

  predicate SmallBlobs(blobs: seq<Blob>) {
    forall b :: b in blobs ==> |b.code| < 0x1_0000_0000
  }

  function BlobsBytes(blobs: seq<Blob>): seq<Byte>
    requires SmallBlobs(blobs)
  {
    if blobs == [] then []
    else
      assert blobs[0] in blobs;
      BlobBytes(blobs[0]) + BlobsBytes(blobs[1..])
  }

  // ---------------------------------------------------------------- draws

  function Flags(d: DrawItem): U32 {
    (if d.indexed then 1 else 0) + (if d.indexIs32 then 2 else 0) + 4 * (d.indexEndian % 4)
  }

  function DrawFields(d: DrawItem, blobs: seq<Blob>): seq<U32>
    requires |blobs| < 0xFFFF_FFFF
  {
    [BlobRef(blobs, d.vs), BlobRef(blobs, d.ps), d.primType, d.indexCount, Flags(d), d.indexGuestBase]
  }

  function DrawBytes(d: DrawItem, blobs: seq<Blob>): seq<Byte>
    requires |blobs| < 0xFFFF_FFFF && |d.registers| < 0x1_0000_0000
  {
    Word(|d.registers|) + Words(d.registers) + Words(DrawFields(d, blobs))
  }

  predicate SmallDraws(draws: seq<DrawItem>) {
    forall d :: d in draws ==> |d.registers| < 0x1_0000_0000
  }

  function DrawsBytes(draws: seq<DrawItem>, blobs: seq<Blob>): seq<Byte>
    requires |blobs| < 0xFFFF_FFFF && SmallDraws(draws)
  {
    if draws == [] then []
    else
      assert draws[0] in draws;
      DrawBytes(draws[0], blobs) + DrawsBytes(draws[1..], blobs)
  }

  // ---------------------------------------------------------------- the file

  function HeaderBytes(version: nat, x: Inputs, blockCount: U32): seq<Byte>
    requires |x.draws| < 0x1_0000_0000
  {
    Words([x.width, x.height, x.mirrorBytes])
    + Words(if version >= 2 then [x.frontBufferAddress] else [])
    + Words(if version >= 3 then x.frontBufferFetch else [])
    + Words([x.window, Low(x.sequence), High(x.sequence), |x.draws|, BlockSize, blockCount])
  }

  lemma {:induction false} BlockCountFits(x: Inputs, id: nat)
    requires x.window <= |x.guest|
    ensures |BlockIds(x, id)| <= if id < x.window then x.window - id else 0
    decreases x.window - id
  {
    if id * BlockSize < x.window {
      BlockCountFits(x, id + 1);
    }
  }

  lemma {:induction false} TableIsSmall(draws: seq<DrawItem>, x: Inputs)
    requires Writable(x) && forall d :: d in draws ==> d in x.draws
    ensures SmallBlobs(BlobTable(Slots(draws)))
  {
    if draws != [] {
      var n := |draws| - 1;
      TableIsSmall(draws[..n], x);
      var slots := Slots(draws);
      assert draws[n] in draws;
      assert slots[..|slots| - 1] == Slots(draws[..n]) + [draws[n].vs];
      assert slots[..|slots| - 1][..|slots| - 2] == Slots(draws[..n]);
    }
  }

  /** A capture in the layout of a version; the newest is the one the writer produces. */
  function Encode(version: nat, x: Inputs): seq<Byte>
    requires Writable(x) && 1 <= version <= NewestVersion
  {
    var ids := BlockIds(x, 0);
    var blobs := BlobTable(Slots(x.draws));
    BlockCountFits(x, 0);
    TableIsSmall(x.draws, x);
    Magic + Word(version) + HeaderBytes(version, x, |ids|)
    + Words(ids) + Blocks(x, ids)
    + Word(|blobs|) + BlobsBytes(blobs)
    + DrawsBytes(x.draws, blobs)
  }

  // ---------------------------------------------------------------- the plain parser

  datatype Parsed<+T> = Failed | Parsed(value: T, rest: seq<Byte>) {
    predicate IsFailure() { Failed? }

    function PropagateFailure<U>(): Parsed<U>
      requires Failed?
    {
      Failed
    }

    function Extract(): (T, seq<Byte>)
      requires Parsed?
    {
      (value, rest)
    }
  }

  function ParseBytes(s: seq<Byte>, n: nat): Parsed<seq<Byte>> {
    if |s| < n then Failed else Parsed(s[..n], s[n..])
  }

  function WordAt(s: seq<Byte>): U32
    requires |s| == 4
  {
    FromLeBound(s);
    FromLe(s)
  }

  lemma {:induction false} FromLeBound(s: seq<Byte>)
    ensures |s| == 0 ==> FromLe(s) < 1
    ensures |s| == 4 ==> FromLe(s) < 0x1_0000_0000
  {
    if |s| == 4 {
      assert s[1..][1..] == s[2..] && s[2..][1..] == s[3..] && s[3..][1..] == s[4..] == [];
      assert FromLe(s[3..]) < 256;
      assert FromLe(s[2..]) < 65536;
      assert FromLe(s[1..]) < 16777216;
    }
  }

  function ParseWord(s: seq<Byte>): Parsed<U32> {
    var (bytes, s1) :- ParseBytes(s, 4);
    Parsed(WordAt(bytes), s1)
  }

  /** n items, one after the other. */
  function ParseList<T>(item: seq<Byte> -> Parsed<T>, s: seq<Byte>, n: nat): (r: Parsed<seq<T>>)
    ensures r.Parsed? ==> |r.value| == n
    decreases n
  {
    if n == 0 then Parsed([], s)
    else
      var (x, s1) :- item(s);
      var (xs, s2) :- ParseList(item, s1, n - 1);
      Parsed([x] + xs, s2)
  }

  function ParseWords(s: seq<Byte>, n: nat): (r: Parsed<seq<U32>>)
    ensures r.Parsed? ==> |r.value| == n
  {
    ParseList(ParseWord, s, n)
  }

  datatype Header = Header(front: Inputs, drawCount: U32, blockSize: U32, blockCount: U32)

  /** Fields a version does not have keep their defaults: no address, and a zero fetch constant. */
  function ParseHeader(s: seq<Byte>, version: nat): Parsed<Header> {
    var (sizes, s1) :- ParseWords(s, 3);
    var (address, s2) :- ParseWords(s1, if version >= 2 then 1 else 0);
    var (fetch, s3) :- ParseWords(s2, if version >= 3 then 6 else 0);
    var (counts, s4) :- ParseWords(s3, 6);
    Parsed(HeaderOf(sizes, address, fetch, counts), s4)
  }

  function HeaderOf(sizes: seq<U32>, address: seq<U32>, fetch: seq<U32>, counts: seq<U32>): Header
    requires |sizes| == 3 && |counts| == 6
  {
    Header(
      Inputs(sizes[0], sizes[1], sizes[2],
             if address == [] then 0 else address[0],
             if fetch == [] then [0, 0, 0, 0, 0, 0] else fetch,
             counts[0], FromHalves(counts[1], counts[2]), [], []),
      counts[3], counts[4], counts[5])
  }

  function Overlay(memory: seq<Byte>, offset: nat, bytes: seq<Byte>): seq<Byte>
    requires offset + |bytes| <= |memory|
  {
    memory[..offset] + bytes + memory[offset + |bytes|..]
  }

  /** The stored blocks laid over memory that starts as zero; a block outside the window fails. */
  function ParseBlocks(s: seq<Byte>, ids: seq<U32>, blockSize: nat, memory: seq<Byte>): (r: Parsed<seq<Byte>>)
    ensures r.Parsed? ==> |r.value| == |memory|
    decreases |ids|
  {
    if ids == [] then Parsed(memory, s)
    else
      var offset := ids[0] * blockSize;
      if offset >= |memory| then Failed
      else
        var (bytes, s1) :- ParseBytes(s, BlockLength(|memory|, blockSize, offset));
        ParseBlocks(s1, ids[1..], blockSize, Overlay(memory, offset, bytes))
  }

  function ParseBlob(s: seq<Byte>): Parsed<Blob> {
    var (halves, s1) :- ParseWords(s, 2);
    var (size, s2) :- ParseWord(s1);
    var (code, s3) :- ParseBytes(s2, size);
    Parsed(Blob(JoinHalves(halves[0], halves[1]), code), s3)
  }

  function ParseBlobs(s: seq<Byte>, n: nat): (r: Parsed<seq<Blob>>)
    ensures r.Parsed? ==> |r.value| == n
  {
    ParseList(ParseBlob, s, n)
  }

  function ShaderAt(blobs: seq<Blob>, ref: U32): Shader {
    if ref < |blobs| then Shader(blobs[ref].code, blobs[ref].hash) else NoShader
  }

  /** Before version 4 the flags hold no byte order, and every index was swapped as k8in32. */
  function DrawOf(version: nat, registers: seq<U32>, fields: seq<U32>, blobs: seq<Blob>): DrawItem
    requires |fields| == 6
  {
    DrawItem(registers, ShaderAt(blobs, fields[0]), ShaderAt(blobs, fields[1]), fields[2], fields[3],
             fields[4] % 2 == 1, fields[4] / 2 % 2 == 1,
             if version >= 4 then fields[4] / 4 % 4 else 2, fields[5])
  }

  function ParseDraw(s: seq<Byte>, version: nat, blobs: seq<Blob>): Parsed<DrawItem> {
    var (count, s1) :- ParseWord(s);
    var (registers, s2) :- ParseWords(s1, count);
    var (fields, s3) :- ParseWords(s2, 6);
    Parsed(DrawOf(version, registers, fields, blobs), s3)
  }

  function DrawParser(version: nat, blobs: seq<Blob>): seq<Byte> -> Parsed<DrawItem> {
    s => ParseDraw(s, version, blobs)
  }

  function ParseDraws(s: seq<Byte>, n: nat, version: nat, blobs: seq<Blob>): (r: Parsed<seq<DrawItem>>)
    ensures r.Parsed? ==> |r.value| == n
  {
    ParseList(DrawParser(version, blobs), s, n)
  }

  function Zeros(n: nat): seq<Byte> {
    seq<Byte>(n, _ => 0)
  }

  /** What follows the header. */
  function ParseBody(s: seq<Byte>, version: nat, h: Header): Parsed<Inputs> {
    if h.blockSize == 0 then Failed
    else
      var (ids, s1) :- ParseWords(s, h.blockCount);
      var (guest, s2) :- ParseBlocks(s1, ids, h.blockSize, Zeros(h.front.window));
      var (blobCount, s3) :- ParseWord(s2);
      var (blobs, s4) :- ParseBlobs(s3, blobCount);
      var (draws, s5) :- ParseDraws(s4, h.drawCount, version, blobs);
      Parsed(h.front.(guest := guest, draws := draws), s5)
  }

  function Parse(s: seq<Byte>): Parsed<Inputs> {
    var (magic, s1) :- ParseBytes(s, 8);
    if magic != Magic then Failed
    else
      var (version, s2) :- ParseWord(s1);
      if version == 0 || version > NewestVersion then Failed
      else
        var (h, s3) :- ParseHeader(s2, version);
        ParseBody(s3, version, h)
  }
}
