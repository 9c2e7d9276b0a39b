/**
 * What a capture keeps: the round trip in every version's layout, when the shaders survive
 * deduplication by hash, and that no truncated file is ever accepted.
 */
module CaptureTheorems {
  import opened CaptureFormat

  // ---------------------------------------------------------------- more bytes change nothing

  /** `p` parses `s`, and still does, to the same value, when `t` follows it. */
  ghost predicate Extends<T>(p: Parsed<T>, q: Parsed<T>, t: seq<Byte>) {
    p.Parsed? ==> q == Parsed(p.value, p.rest + t)
  }

  /** A parse whose list has more in front. */
  function Prefixed<T>(front: seq<T>, p: Parsed<seq<T>>): Parsed<seq<T>> {
    if p.Failed? then Failed else Parsed(front + p.value, p.rest)
  }

  lemma {:induction false} PrefixedNil<T>(p: Parsed<seq<T>>)
    ensures Prefixed([], p) == p
  {
    if p.Parsed? {
      assert [] + p.value == p.value;
    }
  }

  lemma {:induction false} PrefixedMore<T>(front: seq<T>, x: T, p: Parsed<seq<T>>)
    ensures Prefixed(front, Prefixed([x], p)) == Prefixed(front + [x], p)
  {
    if p.Parsed? {
      assert front + ([x] + p.value) == front + [x] + p.value;
    }
  }

  /** A list parse is its first item's, and then the rest's. */
  lemma {:induction false} ListStep<T>(item: seq<Byte> -> Parsed<T>, s: seq<Byte>, n: nat)
    requires n > 0
    ensures ParseList(item, s, n)
            == if item(s).Failed? then Failed else Prefixed([item(s).value], ParseList(item, item(s).rest, n - 1))
  {}

  lemma {:induction false} ListExtends<T>(item: seq<Byte> -> Parsed<T>, s: seq<Byte>, n: nat, t: seq<Byte>)
    requires forall s :: Extends(item(s), item(s + t), t)
    ensures Extends(ParseList(item, s, n), ParseList(item, s + t, n), t)
    decreases n
  {
    if n > 0 && item(s).Parsed? {
      assert Extends(item(s), item(s + t), t);
      ListExtends(item, item(s).rest, n - 1, t);
    }
  }

  lemma {:induction false} BytesExtend(s: seq<Byte>, n: nat, t: seq<Byte>)
    ensures Extends(ParseBytes(s, n), ParseBytes(s + t, n), t)
  {
    if n <= |s| {
      assert (s + t)[..n] == s[..n] && (s + t)[n..] == s[n..] + t;
    }
  }

  lemma {:induction false} WordExtends(s: seq<Byte>, t: seq<Byte>)
    ensures Extends(ParseWord(s), ParseWord(s + t), t)
  {
    BytesExtend(s, 4, t);
  }

  lemma {:induction false} WordsExtend(s: seq<Byte>, n: nat, t: seq<Byte>)
    ensures Extends(ParseWords(s, n), ParseWords(s + t, n), t)
  {
    forall s
      ensures Extends(ParseWord(s), ParseWord(s + t), t)
    {
      WordExtends(s, t);
    }
    ListExtends(ParseWord, s, n, t);
  }

  lemma {:induction false} HeaderExtends(s: seq<Byte>, version: nat, t: seq<Byte>)
    ensures Extends(ParseHeader(s, version), ParseHeader(s + t, version), t)
  {
    var n1, n2 := if version >= 2 then 1 else 0, if version >= 3 then 6 else 0;
    WordsExtend(s, 3, t);
    var p1 := ParseWords(s, 3);
    if p1.Parsed? {
      WordsExtend(p1.rest, n1, t);
      var p2 := ParseWords(p1.rest, n1);
      if p2.Parsed? {
        WordsExtend(p2.rest, n2, t);
        var p3 := ParseWords(p2.rest, n2);
        if p3.Parsed? {
          WordsExtend(p3.rest, 6, t);
        }
      }
    }
  }

  lemma {:induction false} BlocksExtend(s: seq<Byte>, ids: seq<U32>, blockSize: nat, memory: seq<Byte>, t: seq<Byte>)
    ensures Extends(ParseBlocks(s, ids, blockSize, memory), ParseBlocks(s + t, ids, blockSize, memory), t)
    decreases |ids|
  {
    if ids != [] && ids[0] * blockSize < |memory| {
      var offset := ids[0] * blockSize;
      var n := BlockLength(|memory|, blockSize, offset);
      BytesExtend(s, n, t);
      var p := ParseBytes(s, n);
      if p.Parsed? {
        BlocksExtend(p.rest, ids[1..], blockSize, Overlay(memory, offset, p.value), t);
      }
    }
  }

  lemma {:induction false} BlobExtends(s: seq<Byte>, t: seq<Byte>)
    ensures Extends(ParseBlob(s), ParseBlob(s + t), t)
  {
    WordsExtend(s, 2, t);
    var p1 := ParseWords(s, 2);
    if p1.Parsed? {
      WordExtends(p1.rest, t);
      var p2 := ParseWord(p1.rest);
      if p2.Parsed? {
        BytesExtend(p2.rest, p2.value, t);
      }
    }
  }

  lemma {:induction false} BlobsExtend(s: seq<Byte>, n: nat, t: seq<Byte>)
    ensures Extends(ParseBlobs(s, n), ParseBlobs(s + t, n), t)
  {
    forall s
      ensures Extends(ParseBlob(s), ParseBlob(s + t), t)
    {
      BlobExtends(s, t);
    }
    ListExtends(ParseBlob, s, n, t);
  }

  lemma {:induction false} DrawExtends(s: seq<Byte>, version: nat, blobs: seq<Blob>, t: seq<Byte>)
    ensures Extends(ParseDraw(s, version, blobs), ParseDraw(s + t, version, blobs), t)
  {
    WordExtends(s, t);
    var p1 := ParseWord(s);
    if p1.Parsed? {
      WordsExtend(p1.rest, p1.value, t);
      var p2 := ParseWords(p1.rest, p1.value);
      if p2.Parsed? {
        WordsExtend(p2.rest, 6, t);
      }
    }
  }

  lemma {:induction false} DrawsExtend(s: seq<Byte>, n: nat, version: nat, blobs: seq<Blob>, t: seq<Byte>)
    ensures Extends(ParseDraws(s, n, version, blobs), ParseDraws(s + t, n, version, blobs), t)
  {
    var item := DrawParser(version, blobs);
    forall s
      ensures Extends(item(s), item(s + t), t)
    {
      DrawExtends(s, version, blobs, t);
    }
    ListExtends(item, s, n, t);
  }

  lemma {:induction false} BodyExtends(s: seq<Byte>, version: nat, h: Header, t: seq<Byte>)
    ensures Extends(ParseBody(s, version, h), ParseBody(s + t, version, h), t)
  {
    WordsExtend(s, h.blockCount, t);
    var p1 := ParseWords(s, h.blockCount);
    if p1.Parsed? {
      var memory := Zeros(h.front.window);
      BlocksExtend(p1.rest, p1.value, h.blockSize, memory, t);
      var p2 := ParseBlocks(p1.rest, p1.value, h.blockSize, memory);
      if p2.Parsed? {
        WordExtends(p2.rest, t);
        var p3 := ParseWord(p2.rest);
        if p3.Parsed? {
          BlobsExtend(p3.rest, p3.value, t);
          var p4 := ParseBlobs(p3.rest, p3.value);
          if p4.Parsed? {
            DrawsExtend(p4.rest, h.drawCount, version, p4.value, t);
          }
        }
      }
    }
  }

  /** A file that parses still parses, to the same capture, whatever follows it. */
  lemma {:induction false} ParseExtends(s: seq<Byte>, t: seq<Byte>)
    ensures Parse(s).Parsed? ==> Parse(s + t) == Parsed(Parse(s).value, Parse(s).rest + t)
  {
    BytesExtend(s, 8, t);
    var p1 := ParseBytes(s, 8);
    if p1.Parsed? {
      WordExtends(p1.rest, t);
      var p2 := ParseWord(p1.rest);
      if p2.Parsed? {
        HeaderExtends(p2.rest, p2.value, t);
        var p3 := ParseHeader(p2.rest, p2.value);
        if p3.Parsed? {
          BodyExtends(p3.rest, p2.value, p3.value, t);
        }
      }
    }
  }

  // ---------------------------------------------------------------- fields read back

  lemma {:induction false} WordReadsBack(n: U32, t: seq<Byte>)
    ensures ParseWord(Word(n) + t) == Parsed(n, t)
  {
    var s := Word(n);
    assert (s + t)[..4] == s && (s + t)[4..] == t;
    LeReadsBack(n, 4);
  }

  function Pow256(width: nat): nat {
    if width == 0 then 1 else 256 * Pow256(width - 1)
  }

  lemma {:induction false} LeReadsBack(n: nat, width: nat)
    requires n < Pow256(width) || (width == 4 && n < 0x1_0000_0000)
    ensures FromLe(Le(n, width)) == n
  {
    assert Pow256(4) == 0x1_0000_0000 by {
      assert Pow256(1) == 256 && Pow256(2) == 65536 && Pow256(3) == 16777216;
    }
    if width > 0 {
      LeReadsBack(n / 256, width - 1);
      assert Le(n, width)[1..] == Le(n / 256, width - 1);
    }
  }

  lemma {:induction false} WordsReadBack(ns: seq<U32>, t: seq<Byte>)
    ensures ParseWords(Words(ns) + t, |ns|) == Parsed(ns, t)
    decreases |ns|
  {
    if ns == [] {
      assert Words(ns) + t == t;
    } else {
      var rest := Words(ns[1..]) + t;
      assert Words(ns) + t == Word(ns[0]) + rest;
      WordReadsBack(ns[0], rest);
      WordsReadBack(ns[1..], t);
      assert ParseWords(rest, |ns| - 1) == Parsed(ns[1..], t);
      assert [ns[0]] + ns[1..] == ns;
    }
  }

  lemma {:induction false} BytesReadBack(bytes: seq<Byte>, t: seq<Byte>)
    ensures ParseBytes(bytes + t, |bytes|) == Parsed(bytes, t)
  {
    assert (bytes + t)[..|bytes|] == bytes && (bytes + t)[|bytes|..] == t;
  }

  lemma {:induction false} BlobReadsBack(b: Blob, t: seq<Byte>)
    requires |b.code| < 0x1_0000_0000
    ensures ParseBlob(BlobBytes(b) + t) == Parsed(b, t)
  {
    var low, high: U32 := b.hash % 0x1_0000_0000, b.hash / 0x1_0000_0000;
    assert Long(b.hash) == Words([low, high]) by {
      assert [low, high][1..] == [high] && [high][1..] == [];
    }
    var t1 := Word(|b.code|) + (b.code + t);
    assert BlobBytes(b) + t == Words([low, high]) + t1;
    WordsReadBack([low, high], t1);
    WordReadsBack(|b.code|, b.code + t);
    BytesReadBack(b.code, t);
  }

  lemma {:induction false} BlobsReadBack(blobs: seq<Blob>, t: seq<Byte>)
    requires SmallBlobs(blobs)
    ensures ParseBlobs(BlobsBytes(blobs) + t, |blobs|) == Parsed(blobs, t)
    decreases |blobs|
  {
    if blobs == [] {
      assert BlobsBytes(blobs) + t == t;
    } else {
      assert blobs[0] in blobs;
      var more := blobs[1..];
      var rest := BlobsBytes(more) + t;
      assert BlobsBytes(blobs) + t == BlobBytes(blobs[0]) + rest;
      BlobsReadBack(more, t);
      FirstBlobReadsBack(blobs[0], rest, |blobs|, more, t);
      assert [blobs[0]] + more == blobs;
    }
  }

  lemma {:induction false} FirstBlobReadsBack(b: Blob, rest: seq<Byte>, n: nat, more: seq<Blob>, t: seq<Byte>)
    requires |b.code| < 0x1_0000_0000 && n > 0 && ParseBlobs(rest, n - 1) == Parsed(more, t)
    ensures ParseBlobs(BlobBytes(b) + rest, n) == Parsed([b] + more, t)
  {
    BlobReadsBack(b, rest);
  }

  // ---------------------------------------------------------------- guest memory

  /** `memory` is the guest's window except perhaps inside the listed blocks. */
  ghost predicate AgreesOutside(x: Inputs, memory: seq<Byte>, ids: seq<U32>) {
    && x.window <= |x.guest| && |memory| == x.window
    && forall i :: 0 <= i < x.window && (i / BlockSize) !in ids ==> memory[i] == x.guest[i]
  }

  lemma {:induction false} OverlayRestores(x: Inputs, memory: seq<Byte>, ids: seq<U32>)
    requires ids != [] && AgreesOutside(x, memory, ids) && ids[0] * BlockSize < x.window
    ensures AgreesOutside(x, Overlay(memory, ids[0] * BlockSize, Block(x, ids[0])), ids[1..])
  {
    var offset := ids[0] * BlockSize;
    var block := Block(x, ids[0]);
    var restored := Overlay(memory, offset, block);
    forall i | 0 <= i < x.window && (i / BlockSize) !in ids[1..]
      ensures restored[i] == x.guest[i]
    {
      if i / BlockSize == ids[0] {
        assert restored[i] == block[i - offset];
      } else {
        assert (i / BlockSize) !in ids;
        assert restored[i] == memory[i];
      }
    }
  }

  lemma {:induction false} BlocksReadBack(x: Inputs, memory: seq<Byte>, ids: seq<U32>, t: seq<Byte>)
    requires AgreesOutside(x, memory, ids)
    requires forall i :: 0 <= i < |ids| ==> ids[i] * BlockSize < x.window
    ensures ParseBlocks(Blocks(x, ids) + t, ids, BlockSize, memory) == Parsed(x.guest[..x.window], t)
    decreases |ids|
  {
    if ids == [] {
      assert Blocks(x, ids) + t == t;
      assert memory == x.guest[..x.window];
    } else {
      var t1 := Blocks(x, ids[1..]) + t;
      assert Blocks(x, ids) + t == Block(x, ids[0]) + t1;
      BytesReadBack(Block(x, ids[0]), t1);
      OverlayRestores(x, memory, ids);
      BlocksReadBack(x, Overlay(memory, ids[0] * BlockSize, Block(x, ids[0])), ids[1..], t);
    }
  }

  /** A block that is not stored was zero. */
  lemma {:induction false} OmittedBlocksAreZero(x: Inputs, id: nat, k: nat)
    requires x.window <= |x.guest| && id <= k && k * BlockSize < x.window && k !in BlockIds(x, id)
    ensures IsZero(Block(x, k))
    decreases x.window - id
  {
    EarlierBlock(x, id, k);
    NextBlockId(x, id);
    if id < k {
      OmittedBlocksAreZero(x, id + 1, k);
    }
  }

  function LittleEndian(a: nat, b: nat, c: nat, d: nat): nat {
    a + 0x100 * b + 0x1_0000 * c + 0x100_0000 * d
  }

  /** A draw's flags: two bits and a byte order, whatever is above them; before version 4 the byte order is not theirs. */
  lemma {:induction false} FlagsRead(version: nat, registers: seq<U32>, fields: seq<U32>, blobs: seq<Blob>,
                                     indexed: bool, is32: bool, endian: nat, high: nat)
    requires |fields| == 6 && endian < 4
    requires fields[4] == (if indexed then 1 else 0) + (if is32 then 2 else 0) + 4 * endian + 16 * high
    ensures var d := DrawOf(version, registers, fields, blobs);
            d.indexed == indexed && d.indexIs32 == is32 && d.indexEndian == if version >= 4 then endian else 2
  {}

  lemma {:induction false} ParsedWord(s: seq<Byte>)
    requires ParseWord(s).Parsed?
    ensures |s| >= 4 && ParseWord(s).value == LittleEndian(s[0], s[1], s[2], s[3])
  {
    var bytes := s[..4];
    assert bytes[1..][0] == s[1] && bytes[1..][1..][0] == s[2] && bytes[1..][1..][1..][0] == s[3];
    assert bytes[1..][1..][1..][1..] == [];
    assert FromLe(bytes) == bytes[0] + 256 * FromLe(bytes[1..]);
    assert FromLe(bytes[1..]) == s[1] + 256 * FromLe(bytes[1..][1..]);
    assert FromLe(bytes[1..][1..]) == s[2] + 256 * FromLe(bytes[1..][1..][1..]);
  }

  lemma {:induction false} ParsedHeader(s: seq<Byte>)
    requires Parse(s).Parsed?
    ensures |s| >= 8 && s[..8] == [71, 69, 65, 82, 83, 70, 82, 49]
    ensures ParseWord(s[8..]).Parsed? && 1 <= ParseWord(s[8..]).value <= 4
  {}

  /** What is accepted starts with the eight letters and one of the four versions. */
  lemma {:induction false} AcceptedHasHeader(s: seq<Byte>)
    requires Parse(s).Parsed?
    ensures |s| >= 12 && s[..8] == [71, 69, 65, 82, 83, 70, 82, 49]
    ensures 1 <= LittleEndian(s[8], s[9], s[10], s[11]) <= 4
  {
    ParsedHeader(s);
    ParsedWord(s[8..]);
  }

  lemma {:induction false} KeptBlocksHoldSomething(x: Inputs, id: nat, k: nat)
    requires x.window <= |x.guest| && k in BlockIds(x, id)
    ensures id <= k && k * BlockSize < x.window && !IsZero(Block(x, k))
    decreases x.window - id
  {
    var more := BlockIds(x, id + 1);
    if !(k == id && !IsZero(Block(x, id))) {
      var ids := BlockIds(x, id);
      var i :| 0 <= i < |ids| && ids[i] == k;
      assert k in more;
      KeptBlocksHoldSomething(x, id + 1, k);
    }
  }

  /** Some byte of the block, inside the window, is not zero. */
  predicate BlockHoldsSomething(x: Inputs, k: nat)
    requires x.window <= |x.guest|
  {
    exists i :: k * 0x1_0000 <= i < (k + 1) * 0x1_0000 && i < x.window && x.guest[i] != 0
  }

  lemma {:induction false} BlocksKeptIff(x: Inputs)
    requires x.window <= |x.guest|
    ensures forall k: nat :: k in BlockIds(x, 0) <==> BlockHoldsSomething(x, k)
  {
    forall k: nat
      ensures k in BlockIds(x, 0) <==> BlockHoldsSomething(x, k)
    {
      BlockKeptIff(x, k);
    }
  }

  /** A block is kept exactly when it holds something. */
  lemma {:induction false} BlockKeptIff(x: Inputs, k: nat)
    requires x.window <= |x.guest|
    ensures k in BlockIds(x, 0) <==> BlockHoldsSomething(x, k)
  {
    if k * 0x1_0000 < x.window {
      var block := Block(x, k);
      assert forall i :: 0 <= i < |block| ==> block[i] == x.guest[k * 0x1_0000 + i];
      if IsZero(block) {
        if k in BlockIds(x, 0) {
          KeptBlocksHoldSomething(x, 0, k);
        }
        forall i | k * 0x1_0000 <= i < (k + 1) * 0x1_0000 && i < x.window
          ensures x.guest[i] == 0
        {
          assert x.guest[i] == block[i - k * 0x1_0000];
        }
      } else {
        if k !in BlockIds(x, 0) {
          OmittedBlocksAreZero(x, 0, k);
        }
        var i :| 0 <= i < |block| && block[i] != 0;
        assert x.guest[k * 0x1_0000 + i] != 0;
      }
    } else if k in BlockIds(x, 0) {
      KeptBlocksHoldSomething(x, 0, k);
    }
  }

  lemma {:induction false} EarlierBlock(x: Inputs, id: nat, k: nat)
    requires id <= k && k * BlockSize < x.window
    ensures id * BlockSize < x.window && id < x.window
  {}

  lemma {:induction false} NextBlockId(x: Inputs, id: nat)
    requires x.window <= |x.guest| && id * BlockSize < x.window
    ensures !IsZero(Block(x, id)) ==> id in BlockIds(x, id)
    ensures forall k :: k in BlockIds(x, id + 1) ==> k in BlockIds(x, id)
  {
    var more := BlockIds(x, id + 1);
    forall k | k in more
      ensures k in [id] + more
    {
      var i :| 0 <= i < |more| && more[i] == k;
      assert ([id] + more)[i + 1] == k;
    }
    assert ([id] + more)[0] == id;
  }

  lemma {:induction false} OmittedByteIsZero(x: Inputs, i: nat)
    requires x.window <= |x.guest| && i < x.window && i / BlockSize !in BlockIds(x, 0)
    ensures x.guest[i] == 0
  {
    var k := i / BlockSize;
    OmittedBlocksAreZero(x, 0, k);
    assert Block(x, k)[i - k * BlockSize] == x.guest[i];
  }

  lemma {:induction false} ZerosAgreeOutside(x: Inputs)
    requires x.window <= |x.guest|
    ensures AgreesOutside(x, Zeros(x.window), BlockIds(x, 0))
  {
    forall i | 0 <= i < x.window && (i / BlockSize) !in BlockIds(x, 0)
      ensures Zeros(x.window)[i] == x.guest[i]
    {
      OmittedByteIsZero(x, i);
    }
  }

  // ---------------------------------------------------------------- draws and their shaders

  /** What a slot comes back as: the code its hash was first seen with, and nothing if it had none. */
  function Kept(blobs: seq<Blob>, slot: Shader): Shader {
    if slot.code == [] || IndexOf(blobs, slot.hash) == |blobs| then NoShader
    else Shader(blobs[IndexOf(blobs, slot.hash)].code, slot.hash)
  }

  /** Before version 4 the byte order is not stored, and reads as 2; after it, its two bits are. */
  function KeptDraw(version: nat, d: DrawItem, blobs: seq<Blob>): DrawItem {
    d.(vs := Kept(blobs, d.vs), ps := Kept(blobs, d.ps),
       indexEndian := if version >= 4 then d.indexEndian % 4 else 2)
  }

  function KeptDraws(version: nat, draws: seq<DrawItem>, blobs: seq<Blob>): seq<DrawItem> {
    seq(|draws|, i requires 0 <= i < |draws| => KeptDraw(version, draws[i], blobs))
  }

  ghost predicate Holds(blobs: seq<Blob>, slot: Shader) {
    slot.code != [] ==> IndexOf(blobs, slot.hash) < |blobs|
  }

  ghost predicate HoldsDraws(blobs: seq<Blob>, draws: seq<DrawItem>) {
    forall d :: d in draws ==> Holds(blobs, d.vs) && Holds(blobs, d.ps)
  }

  lemma {:induction false} RefReadsBack(blobs: seq<Blob>, slot: Shader)
    requires |blobs| < 0xFFFF_FFFF && Holds(blobs, slot)
    ensures ShaderAt(blobs, BlobRef(blobs, slot)) == Kept(blobs, slot)
  {}

  lemma {:induction false} FlagsReadBack(d: DrawItem)
    ensures (Flags(d) % 2 == 1) == d.indexed
    ensures (Flags(d) / 2 % 2 == 1) == d.indexIs32
    ensures Flags(d) / 4 % 4 == d.indexEndian % 4
  {}

  lemma {:induction false} DrawReadsBack(d: DrawItem, version: nat, blobs: seq<Blob>, t: seq<Byte>)
    requires |blobs| < 0xFFFF_FFFF && |d.registers| < 0x1_0000_0000
    requires Holds(blobs, d.vs) && Holds(blobs, d.ps)
    ensures ParseDraw(DrawBytes(d, blobs) + t, version, blobs) == Parsed(KeptDraw(version, d, blobs), t)
  {
    var fields := DrawFields(d, blobs);
    var t2 := Words(fields) + t;
    var t1 := Words(d.registers) + t2;
    assert DrawBytes(d, blobs) + t == Word(|d.registers|) + t1;
    WordReadsBack(|d.registers|, t1);
    WordsReadBack(d.registers, t2);
    WordsReadBack(fields, t);
    PartsReadBack(DrawBytes(d, blobs) + t, version, blobs, d.registers, t1, t2, fields, t);
    FieldsReadBack(d, version, blobs);
  }

  lemma {:induction false} PartsReadBack(s: seq<Byte>, version: nat, blobs: seq<Blob>, registers: seq<U32>,
                                         t1: seq<Byte>, t2: seq<Byte>, fields: seq<U32>, t: seq<Byte>)
    requires ParseWord(s).Parsed? && ParseWord(s).value == |registers| && ParseWord(s).rest == t1
    requires ParseWords(t1, |registers|) == Parsed(registers, t2)
    requires |fields| == 6 && ParseWords(t2, 6) == Parsed(fields, t)
    ensures ParseDraw(s, version, blobs) == Parsed(DrawOf(version, registers, fields, blobs), t)
  {}

  lemma {:induction false} FieldsReadBack(d: DrawItem, version: nat, blobs: seq<Blob>)
    requires |blobs| < 0xFFFF_FFFF && Holds(blobs, d.vs) && Holds(blobs, d.ps)
    ensures DrawOf(version, d.registers, DrawFields(d, blobs), blobs) == KeptDraw(version, d, blobs)
  {
    RefReadsBack(blobs, d.vs);
    RefReadsBack(blobs, d.ps);
    FlagsReadBack(d);
  }

  lemma {:induction false} FirstDraw(draws: seq<DrawItem>, blobs: seq<Blob>, t: seq<Byte>)
    requires |blobs| < 0xFFFF_FFFF && SmallDraws(draws) && HoldsDraws(blobs, draws) && draws != []
    ensures |draws[0].registers| < 0x1_0000_0000 && Holds(blobs, draws[0].vs) && Holds(blobs, draws[0].ps)
    ensures SmallDraws(draws[1..]) && HoldsDraws(blobs, draws[1..])
    ensures DrawsBytes(draws, blobs) + t == DrawBytes(draws[0], blobs) + (DrawsBytes(draws[1..], blobs) + t)
  {
    assert draws[0] in draws;
    var a, b := DrawBytes(draws[0], blobs), DrawsBytes(draws[1..], blobs);
    assert (a + b) + t == a + (b + t);
  }

  lemma {:induction false} NoDraws(version: nat, blobs: seq<Blob>, t: seq<Byte>)
    requires |blobs| < 0xFFFF_FFFF
    ensures DrawsRead(DrawsBytes([], blobs) + t, 0, version, blobs, KeptDraws(version, [], blobs), t)
  {
    assert DrawsBytes([], blobs) + t == t;
    assert KeptDraws(version, [], blobs) == [];
  }

  ghost predicate DrawsRead(s: seq<Byte>, n: nat, version: nat, blobs: seq<Blob>, ds: seq<DrawItem>, t: seq<Byte>) {
    ParseDraws(s, n, version, blobs) == Parsed(ds, t)
  }

  /** What holds of no items, and of a list when it holds of its rest, holds of every list. */
  lemma {:induction false} TailInduction<T>(s: seq<T>, P: seq<T> -> bool)
    requires P([]) && forall t: seq<T> {:trigger P(t)} :: t != [] && P(t[1..]) ==> P(t)
    ensures P(s)
  {
    if s != [] {
      TailInduction(s[1..], P);
    }
  }

  ghost predicate ReadBack(draws: seq<DrawItem>, version: nat, blobs: seq<Blob>, t: seq<Byte>)
    requires |blobs| < 0xFFFF_FFFF
  {
    SmallDraws(draws) && HoldsDraws(blobs, draws) ==>
      DrawsRead(DrawsBytes(draws, blobs) + t, |draws|, version, blobs, KeptDraws(version, draws, blobs), t)
  }

  lemma {:induction false} NoDrawsReadBack(version: nat, blobs: seq<Blob>, t: seq<Byte>)
    requires |blobs| < 0xFFFF_FFFF
    ensures ReadBack([], version, blobs, t)
  {
    NoDraws(version, blobs, t);
  }

  lemma {:induction false} StepReadsBack(draws: seq<DrawItem>, version: nat, blobs: seq<Blob>, t: seq<Byte>)
    requires |blobs| < 0xFFFF_FFFF && draws != [] && ReadBack(draws[1..], version, blobs, t)
    ensures ReadBack(draws, version, blobs, t)
  {
    if SmallDraws(draws) && HoldsDraws(blobs, draws) {
      FirstDraw(draws, blobs, t);
      MoreDrawsReadBack(draws, version, blobs, DrawsBytes(draws[1..], blobs) + t, DrawsBytes(draws, blobs) + t, t);
    }
  }

  lemma {:induction false} DrawsReadBack(draws: seq<DrawItem>, version: nat, blobs: seq<Blob>, t: seq<Byte>)
    requires |blobs| < 0xFFFF_FFFF
    ensures ReadBack(draws, version, blobs, t)
  {
    NoDrawsReadBack(version, blobs, t);
    forall ds: seq<DrawItem> | ds != [] && ReadBack(ds[1..], version, blobs, t)
      ensures ReadBack(ds, version, blobs, t)
    {
      StepReadsBack(ds, version, blobs, t);
    }
    TailInduction(draws, ds => ReadBack(ds, version, blobs, t));
  }

  lemma {:induction false} MoreDrawsReadBack(draws: seq<DrawItem>, version: nat, blobs: seq<Blob>, rest: seq<Byte>,
                                             whole: seq<Byte>, t: seq<Byte>)
    requires |blobs| < 0xFFFF_FFFF && draws != []
    requires |draws[0].registers| < 0x1_0000_0000 && Holds(blobs, draws[0].vs) && Holds(blobs, draws[0].ps)
    requires DrawsRead(rest, |draws| - 1, version, blobs, KeptDraws(version, draws[1..], blobs), t)
    requires whole == DrawBytes(draws[0], blobs) + rest
    ensures DrawsRead(whole, |draws|, version, blobs, KeptDraws(version, draws, blobs), t)
  {
    FirstDrawReadsBack(draws[0], version, blobs, rest, |draws|, KeptDraws(version, draws[1..], blobs), t);
    KeptDrawsSplit(version, draws, blobs);
  }

  lemma {:induction false} FirstDrawReadsBack(d: DrawItem, version: nat, blobs: seq<Blob>, rest: seq<Byte>,
                                              n: nat, ds: seq<DrawItem>, t: seq<Byte>)
    requires |blobs| < 0xFFFF_FFFF && |d.registers| < 0x1_0000_0000 && Holds(blobs, d.vs) && Holds(blobs, d.ps)
    requires n > 0 && DrawsRead(rest, n - 1, version, blobs, ds, t)
    ensures DrawsRead(DrawBytes(d, blobs) + rest, n, version, blobs, [KeptDraw(version, d, blobs)] + ds, t)
  {
    DrawReadsBack(d, version, blobs, rest);
    NextDrawReadsBack(DrawBytes(d, blobs) + rest, n, version, blobs, KeptDraw(version, d, blobs), rest, ds, t);
  }

  lemma {:induction false} KeptDrawsSplit(version: nat, draws: seq<DrawItem>, blobs: seq<Blob>)
    requires draws != []
    ensures KeptDraws(version, draws, blobs)
         == [KeptDraw(version, draws[0], blobs)] + KeptDraws(version, draws[1..], blobs)
  {}

  lemma {:induction false} NextDrawReadsBack(s: seq<Byte>, n: nat, version: nat, blobs: seq<Blob>, d: DrawItem,
                                             rest: seq<Byte>, ds: seq<DrawItem>, t: seq<Byte>)
    requires n > 0 && ParseDraw(s, version, blobs) == Parsed(d, rest)
    requires ParseDraws(rest, n - 1, version, blobs) == Parsed(ds, t)
    ensures ParseDraws(s, n, version, blobs) == Parsed([d] + ds, t)
  {
    var item := DrawParser(version, blobs);
    assert item(s) == Parsed(d, rest);
  }

  lemma {:induction false} IndexOfIsFirst(blobs: seq<Blob>, hash: U64, i: nat)
    requires i < |blobs| && blobs[i].hash == hash && forall j :: 0 <= j < i ==> blobs[j].hash != hash
    ensures IndexOf(blobs, hash) == i
  {
    assert IndexOf(blobs, hash) <= i;
    assert IndexOf(blobs, hash) >= i;
  }

  /** A table that grows keeps the places of what it has. */
  lemma {:induction false} InternedKeeps(blobs: seq<Blob>, slot: Shader, hash: U64)
    requires IndexOf(blobs, hash) < |blobs|
    ensures IndexOf(Interned(blobs, slot), hash) == IndexOf(blobs, hash)
    ensures Interned(blobs, slot)[IndexOf(blobs, hash)] == blobs[IndexOf(blobs, hash)]
  {
    IndexOfIsFirst(Interned(blobs, slot), hash, IndexOf(blobs, hash));
  }

  lemma {:induction false} InternedHolds(blobs: seq<Blob>, slot: Shader)
    requires slot.code != []
    ensures IndexOf(Interned(blobs, slot), slot.hash) < |Interned(blobs, slot)|
    ensures IndexOf(blobs, slot.hash) == |blobs| ==>
              IndexOf(Interned(blobs, slot), slot.hash) == |blobs|
              && Interned(blobs, slot)[|blobs|] == Blob(slot.hash, slot.code)
  {
    if IndexOf(blobs, slot.hash) == |blobs| {
      IndexOfIsFirst(Interned(blobs, slot), slot.hash, |blobs|);
    }
  }

  /** Every slot with code is in the table, under the code of some slot with its hash. */
  lemma {:induction false} TableHolds(slots: seq<Shader>, slot: Shader)
    requires slot in slots && slot.code != []
    ensures var blobs := BlobTable(slots);
            var i := IndexOf(blobs, slot.hash);
            && i < |blobs|
            && exists first :: first in slots && first.code != [] && first.hash == slot.hash && blobs[i].code == first.code
    decreases |slots|
  {
    var n := |slots| - 1;
    var before := BlobTable(slots[..n]);
    assert slots == slots[..n] + [slots[n]];
    InternedHolds(before, slot);
    if exists s :: s in slots[..n] && s.code != [] && s.hash == slot.hash {
      var s :| s in slots[..n] && s.code != [] && s.hash == slot.hash;
      TableHolds(slots[..n], s);
      InternedKeeps(before, slots[n], slot.hash);
    } else {
      assert slot == slots[n];
      if IndexOf(before, slot.hash) < |before| {
        TableHasOnlySlots(slots[..n], IndexOf(before, slot.hash));
      }
    }
  }

  lemma {:induction false} TableHasOnlySlots(slots: seq<Shader>, i: nat)
    requires i < |BlobTable(slots)|
    ensures exists s :: s in slots && s.code != [] && BlobTable(slots)[i] == Blob(s.hash, s.code)
    decreases |slots|
  {
    var n := |slots| - 1;
    if i < |BlobTable(slots[..n])| {
      TableHasOnlySlots(slots[..n], i);
    } else {
      assert slots[n] in slots;
    }
  }

  lemma {:induction false} SlotsOfDraws(draws: seq<DrawItem>, slot: Shader)
    ensures slot in Slots(draws) <==> exists d :: d in draws && (slot == d.vs || slot == d.ps)
  {
    if draws != [] {
      var n := |draws| - 1;
      assert draws == draws[..n] + [draws[n]];
      SlotsOfDraws(draws[..n], slot);
    }
  }

  lemma {:induction false} TableHoldsDraws(draws: seq<DrawItem>)
    ensures HoldsDraws(BlobTable(Slots(draws)), draws)
  {
    forall d | d in draws
      ensures Holds(BlobTable(Slots(draws)), d.vs) && Holds(BlobTable(Slots(draws)), d.ps)
    {
      SlotsOfDraws(draws, d.vs);
      SlotsOfDraws(draws, d.ps);
      if d.vs.code != [] {
        TableHolds(Slots(draws), d.vs);
      }
      if d.ps.code != [] {
        TableHolds(Slots(draws), d.ps);
      }
    }
  }

  // ---------------------------------------------------------------- the round trip

  /** The capture as a reader of that version sees it. */
  function KeptInputs(version: nat, x: Inputs): Inputs
    requires Writable(x)
  {
    x.(frontBufferAddress := if version >= 2 then x.frontBufferAddress else 0,
       frontBufferFetch := if version >= 3 then x.frontBufferFetch else [0, 0, 0, 0, 0, 0],
       guest := x.guest[..x.window],
       draws := KeptDraws(version, x.draws, BlobTable(Slots(x.draws))))
  }

  lemma {:induction false} HalvesReadBack(n: I64)
    ensures FromHalves(Low(n), High(n)) == n
  {}

  lemma {:induction false} HeaderReadsBack(version: nat, x: Inputs, blockCount: U32, t: seq<Byte>)
    requires |x.draws| < 0x1_0000_0000 && |x.frontBufferFetch| == 6
    ensures ParseHeader(HeaderBytes(version, x, blockCount) + t, version)
            == Parsed(Header(
                 x.(frontBufferAddress := if version >= 2 then x.frontBufferAddress else 0,
                    frontBufferFetch := if version >= 3 then x.frontBufferFetch else [0, 0, 0, 0, 0, 0],
                    guest := [], draws := []),
                 |x.draws|, BlockSize, blockCount), t)
  {
    var sizes: seq<U32> := [x.width, x.height, x.mirrorBytes];
    var address: seq<U32> := if version >= 2 then [x.frontBufferAddress] else [];
    var fetch: seq<U32> := if version >= 3 then x.frontBufferFetch else [];
    var counts: seq<U32> := [x.window, Low(x.sequence), High(x.sequence), |x.draws|, BlockSize, blockCount];
    var t3 := Words(counts) + t;
    var t2 := Words(fetch) + t3;
    var t1 := Words(address) + t2;
    assert HeaderBytes(version, x, blockCount) + t == Words(sizes) + t1;
    WordsReadBack(sizes, t1);
    WordsReadBack(address, t2);
    WordsReadBack(fetch, t3);
    WordsReadBack(counts, t);
    HalvesReadBack(x.sequence);
  }

  lemma {:induction false} BodyReadsBack(version: nat, x: Inputs, h: Header, t: seq<Byte>)
    requires Writable(x)
    requires h.front.window == x.window && h.drawCount == |x.draws| && h.blockSize == BlockSize
    requires h.blockCount == |BlockIds(x, 0)|
    requires SmallBlobs(BlobTable(Slots(x.draws)))
    ensures var ids, blobs := BlockIds(x, 0), BlobTable(Slots(x.draws));
            ParseBody(Words(ids) + (Blocks(x, ids) + (Word(|blobs|) + (BlobsBytes(blobs) + (DrawsBytes(x.draws, blobs) + t)))),
                      version, h)
            == Parsed(h.front.(guest := x.guest[..x.window], draws := KeptDraws(version, x.draws, blobs)), t)
  {
    var ids, blobs := BlockIds(x, 0), BlobTable(Slots(x.draws));
    var t4 := DrawsBytes(x.draws, blobs) + t;
    var t3 := BlobsBytes(blobs) + t4;
    var t2 := Word(|blobs|) + t3;
    var t1 := Blocks(x, ids) + t2;
    WordsReadBack(ids, t1);
    ZerosAgreeOutside(x);
    BlocksReadBack(x, Zeros(x.window), ids, t2);
    WordReadsBack(|blobs|, t3);
    BlobsReadBack(blobs, t4);
    TableHoldsDraws(x.draws);
    DrawsReadBack(x.draws, version, blobs, t);
  }

  function EncodedBody(x: Inputs): seq<Byte>
    requires Writable(x) && SmallBlobs(BlobTable(Slots(x.draws)))
  {
    var ids, blobs := BlockIds(x, 0), BlobTable(Slots(x.draws));
    Words(ids) + (Blocks(x, ids) + (Word(|blobs|) + (BlobsBytes(blobs) + (DrawsBytes(x.draws, blobs) + []))))
  }

  lemma {:induction false} EncodeNests(version: nat, x: Inputs)
    requires Writable(x) && 1 <= version <= NewestVersion
    requires |BlockIds(x, 0)| < 0x1_0000_0000 && SmallBlobs(BlobTable(Slots(x.draws)))
    ensures Encode(version, x)
            == Magic + (Word(version) + (HeaderBytes(version, x, |BlockIds(x, 0)|) + EncodedBody(x)))
  {
    var ids, blobs := BlockIds(x, 0), BlobTable(Slots(x.draws));
    var v, h := Word(version), HeaderBytes(version, x, |ids|);
    var w, b, n, bs, ds := Words(ids), Blocks(x, ids), Word(|blobs|), BlobsBytes(blobs), DrawsBytes(x.draws, blobs);
    Regroup(Magic, v, h, w, b, n, bs, ds);
  }

  lemma {:induction false} Regroup(m: seq<Byte>, v: seq<Byte>, h: seq<Byte>, w: seq<Byte>, b: seq<Byte>,
                                   n: seq<Byte>, bs: seq<Byte>, ds: seq<Byte>)
    ensures m + v + h + w + b + n + bs + ds == m + (v + (h + (w + (b + (n + (bs + (ds + [])))))))
  {
    assert ds + [] == ds;
    assert m + v + h + w + b + n + bs + ds == m + v + h + w + b + n + (bs + ds);
    assert m + v + h + w + b + n + (bs + ds) == m + v + h + w + b + (n + (bs + ds));
    assert m + v + h + w + b + (n + (bs + ds)) == m + v + h + w + (b + (n + (bs + ds)));
    assert m + v + h + w + (b + (n + (bs + ds))) == m + v + h + (w + (b + (n + (bs + ds))));
    assert m + v + h + (w + (b + (n + (bs + ds)))) == m + v + (h + (w + (b + (n + (bs + ds)))));
  }

  /**
   * The round trip, in the layout of every version. The header, the window of guest memory byte for
   * byte, and each draw's registers and fields come back; what a version has no field for
   * comes back as its default; a shader comes back as the code its hash was first seen with.
   */
  lemma {:induction false} RoundTrip(version: nat, x: Inputs)
    requires Writable(x) && 1 <= version <= NewestVersion
    ensures Parse(Encode(version, x)) == Parsed(KeptInputs(version, x), [])
  {
    BlockCountFits(x, 0);
    TableIsSmall(x.draws, x);
    EncodeNests(version, x);
    var count := |BlockIds(x, 0)|;
    HeaderReadsBack(version, x, count, EncodedBody(x));
    EncodedBodyReadsBack(version, x);
    FileReadsBack(version, HeaderBytes(version, x, count), EncodedBody(x), KeptHeader(version, x), KeptInputs(version, x));
  }

  function KeptHeader(version: nat, x: Inputs): Header
    requires Writable(x) && |BlockIds(x, 0)| < 0x1_0000_0000
  {
    Header(
      x.(frontBufferAddress := if version >= 2 then x.frontBufferAddress else 0,
         frontBufferFetch := if version >= 3 then x.frontBufferFetch else [0, 0, 0, 0, 0, 0],
         guest := [], draws := []),
      |x.draws|, BlockSize, |BlockIds(x, 0)|)
  }

  lemma {:induction false} EncodedBodyReadsBack(version: nat, x: Inputs)
    requires Writable(x) && |BlockIds(x, 0)| < 0x1_0000_0000 && SmallBlobs(BlobTable(Slots(x.draws)))
    ensures ParseBody(EncodedBody(x), version, KeptHeader(version, x)) == Parsed(KeptInputs(version, x), [])
  {
    BodyReadsBack(version, x, KeptHeader(version, x), []);
  }

  /** A magic, a version and two parts that parse make a file that parses. */
  lemma {:induction false} FileReadsBack(version: nat, header: seq<Byte>, body: seq<Byte>, h: Header, x: Inputs)
    requires 1 <= version <= NewestVersion
    requires ParseHeader(header + body, version) == Parsed(h, body) && ParseBody(body, version, h) == Parsed(x, [])
    ensures Parse(Magic + (Word(version) + (header + body))) == Parsed(x, [])
  {
    BytesReadBack(Magic, Word(version) + (header + body));
    WordReadsBack(version, header + body);
  }

  /** No truncated capture is accepted, whichever field the cut falls in. */
  lemma {:induction false} TruncationIsCaught(version: nat, x: Inputs, length: nat)
    requires Writable(x) && 1 <= version <= NewestVersion && length < |Encode(version, x)|
    ensures Parse(Encode(version, x)[..length]).Failed?
  {
    RoundTrip(version, x);
    PrefixFails(Encode(version, x), length);
  }

  /** A file parsed to its last byte has no prefix that parses. */
  lemma {:induction false} PrefixFails(file: seq<Byte>, length: nat)
    requires Parse(file).Parsed? && Parse(file).rest == [] && length < |file|
    ensures Parse(file[..length]).Failed?
  {
    assert file == file[..length] + file[length..];
    FrontFails(file[..length], file[length..]);
  }

  lemma {:induction false} FrontFails(front: seq<Byte>, back: seq<Byte>)
    requires Parse(front + back).Parsed? && Parse(front + back).rest == [] && back != []
    ensures Parse(front).Failed?
  {
    ParseExtends(front, back);
  }

  // ---------------------------------------------------------------- when the shaders survive

  /** Equal hashes mean equal code, over every shader the frame binds. */
  ghost predicate HashesIdentifyCode(draws: seq<DrawItem>) {
    forall a, b :: a in Slots(draws) && b in Slots(draws) && a.code != [] && b.code != [] && a.hash == b.hash ==>
                     a.code == b.code
  }

  /** A slot without code comes back without its hash: nothing in the file records it. */
  function Plain(slot: Shader): Shader {
    if slot.code == [] then NoShader else slot
  }

  /** Every draw has come back with the shaders it went in with. */
  ghost predicate OwnShaders(back: seq<DrawItem>, draws: seq<DrawItem>) {
    && |back| == |draws|
    && forall i :: 0 <= i < |draws| ==> back[i].vs == Plain(draws[i].vs) && back[i].ps == Plain(draws[i].ps)
  }

  lemma {:induction false} OwnShaderKept(draws: seq<DrawItem>, slot: Shader)
    requires HashesIdentifyCode(draws) && exists d :: d in draws && (slot == d.vs || slot == d.ps)
    ensures Kept(BlobTable(Slots(draws)), slot) == Plain(slot)
  {
    SlotsOfDraws(draws, slot);
    if slot.code != [] {
      TableHolds(Slots(draws), slot);
    }
  }

  lemma {:induction false} OwnShadersKept(version: nat, draws: seq<DrawItem>)
    requires HashesIdentifyCode(draws)
    ensures OwnShaders(KeptDraws(version, draws, BlobTable(Slots(draws))), draws)
  {
    var kept := KeptDraws(version, draws, BlobTable(Slots(draws)));
    forall i | 0 <= i < |draws|
      ensures kept[i].vs == Plain(draws[i].vs) && kept[i].ps == Plain(draws[i].ps)
    {
      assert draws[i] in draws;
      OwnShaderKept(draws, draws[i].vs);
      OwnShaderKept(draws, draws[i].ps);
    }
  }

  lemma {:induction false} SlotIsKept(version: nat, draws: seq<DrawItem>, slot: Shader)
    requires slot in Slots(draws) && slot.code != []
    requires OwnShaders(KeptDraws(version, draws, BlobTable(Slots(draws))), draws)
    ensures Kept(BlobTable(Slots(draws)), slot) == slot
  {
    SlotsOfDraws(draws, slot);
    var d :| d in draws && (slot == d.vs || slot == d.ps);
    var i :| 0 <= i < |draws| && draws[i] == d;
    assert KeptDraws(version, draws, BlobTable(Slots(draws)))[i] == KeptDraw(version, d, BlobTable(Slots(draws)));
  }

  lemma {:induction false} OwnShadersIdentify(version: nat, draws: seq<DrawItem>)
    requires OwnShaders(KeptDraws(version, draws, BlobTable(Slots(draws))), draws)
    ensures HashesIdentifyCode(draws)
  {
    var slots := Slots(draws);
    forall a, b | a in slots && b in slots && a.code != [] && b.code != [] && a.hash == b.hash
      ensures a.code == b.code
    {
      SlotIsKept(version, draws, a);
      SlotIsKept(version, draws, b);
    }
  }

  /** Every draw gets its own shaders back if and only if no two of the frame's shaders collide. */
  lemma {:induction false} ShadersSurviveIff(version: nat, x: Inputs)
    requires Writable(x) && 1 <= version <= NewestVersion
    ensures Parse(Encode(version, x)).Parsed?
    ensures OwnShaders(Parse(Encode(version, x)).value.draws, x.draws) <==> HashesIdentifyCode(x.draws)
  {
    RoundTrip(version, x);
    if HashesIdentifyCode(x.draws) {
      OwnShadersKept(version, x.draws);
    }
    if OwnShaders(KeptDraws(version, x.draws, BlobTable(Slots(x.draws))), x.draws) {
      OwnShadersIdentify(version, x.draws);
    }
  }
}
