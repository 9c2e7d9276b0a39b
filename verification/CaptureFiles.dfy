/**
 * The capture reader and writer as the runtime has them: one pass over the file, with a flag
 * that sticks at the first short read or write and is looked at only now and then. What they
 * produce is what the plain parser and the plain encoder of CaptureFormat produce.
 */
module CaptureFiles {
  import opened Wrappers
  import opened CaptureFormat
  import opened CaptureTheorems

  datatype DrawRef = DrawRef(vs: U32, ps: U32)

  // ---------------------------------------------------------------- reading

  /** The flag, the value and what is left, against what the parser says. */
  ghost predicate Agrees<T>(p: Parsed<T>, ok: bool, value: T, rest: seq<Byte>) {
    if p.Failed? then !ok else ok && value == p.value && rest == p.rest
  }

  /** One item of a list read after those in front of it, or the failure of the whole. */
  lemma {:induction false} ItemRead<T>(item: seq<Byte> -> Parsed<T>, whole: Parsed<seq<T>>, s: seq<Byte>, n: nat,
                                       front: seq<T>, x: T, ok: bool, rest: seq<Byte>)
    requires n > 0 && whole == Prefixed(front, ParseList(item, s, n)) && Agrees(item(s), ok, x, rest)
    ensures ok ==> whole == Prefixed(front + [x], ParseList(item, rest, n - 1))
    ensures !ok ==> whole.Failed?
  {
    ListStep(item, s, n);
    if ok {
      PrefixedMore(front, x, ParseList(item, rest, n - 1));
    }
  }

  lemma {:induction false} BlobRead(whole: Parsed<seq<Blob>>, s: seq<Byte>, n: nat, front: seq<Blob>, b: Blob, ok: bool, rest: seq<Byte>)
    requires n > 0 && whole == Prefixed(front, ParseBlobs(s, n)) && Agrees(ParseBlob(s), ok, b, rest)
    ensures ok ==> whole == Prefixed(front + [b], ParseBlobs(rest, n - 1))
    ensures !ok ==> whole.Failed?
  {
    ItemRead(ParseBlob, whole, s, n, front, b, ok, rest);
  }

  lemma {:induction false} AllBlobsRead(whole: Parsed<seq<Blob>>, s: seq<Byte>, front: seq<Blob>)
    requires whole == Prefixed(front, ParseBlobs(s, 0))
    ensures whole == Parsed(front, s)
  {
    assert front + [] == front;
  }

  lemma {:induction false} DrawRead(whole: Parsed<seq<DrawItem>>, s: seq<Byte>, n: nat, version: nat, blobs: seq<Blob>,
                                    front: seq<DrawItem>, d: DrawItem, ok: bool, rest: seq<Byte>)
    requires n > 0 && whole == Prefixed(front, ParseDraws(s, n, version, blobs))
    requires Agrees(ParseDraw(s, version, blobs), ok, d, rest)
    ensures ok ==> whole == Prefixed(front + [d], ParseDraws(rest, n - 1, version, blobs))
    ensures !ok ==> whole.Failed?
  {
    var item := DrawParser(version, blobs);
    assert item(s) == ParseDraw(s, version, blobs);
    ItemRead(item, whole, s, n, front, d, ok, rest);
  }

  lemma {:induction false} AllDrawsRead(whole: Parsed<seq<DrawItem>>, s: seq<Byte>, version: nat, blobs: seq<Blob>, front: seq<DrawItem>)
    requires whole == Prefixed(front, ParseDraws(s, 0, version, blobs))
    ensures whole == Parsed(front, s)
  {
    assert front + [] == front;
  }

  class Reader {
    const file: seq<Byte>
    var pos: nat
    var ok: bool

    ghost predicate Valid()
      reads this
    {
      pos <= |file|
    }

    ghost function Rest(): seq<Byte>
      requires Valid()
      reads this
    {
      file[pos..]
    }

    constructor (file: seq<Byte>)
      ensures Valid() && ok && Rest() == file
    {
      this.file, pos, ok := file, 0, true;
    }

    /** A short read fills what it can, leaves the rest zero, and sets the flag for good. */
    method Raw(n: nat) returns (bytes: seq<Byte>)
      requires Valid()
      modifies this
      ensures Valid() && |bytes| == n
      ensures old(ok) ==> Agrees(ParseBytes(old(Rest()), n), ok, bytes, Rest())
      ensures !old(ok) ==> !ok
    {
      if !ok {
        return Zeros(n);
      }
      if n <= |file| - pos {
        bytes := file[pos..pos + n];
        assert file[pos..][..n] == bytes && file[pos..][n..] == file[pos + n..];
        pos := pos + n;
      } else {
        bytes := file[pos..] + Zeros(n - (|file| - pos));
        pos := |file|;
        ok := false;
      }
    }

    method ReadWord() returns (w: U32)
      requires Valid()
      modifies this
      ensures Valid()
      ensures old(ok) ==> Agrees(ParseWord(old(Rest())), ok, w, Rest())
      ensures !old(ok) ==> !ok
    {
      var bytes := Raw(4);
      w := WordAt(bytes);
    }

    /** Goes on asking after a failure, as the header and the block list do. */
    method ReadWords(n: nat) returns (ws: seq<U32>)
      requires Valid()
      modifies this
      ensures Valid() && |ws| == n
      ensures old(ok) ==> Agrees(ParseWords(old(Rest()), n), ok, ws, Rest())
      ensures !old(ok) ==> !ok
    {
      ws := [];
      PrefixedNil(ParseWords(Rest(), n));
      for i := 0 to n
        invariant Valid() && |ws| == i
        invariant !old(ok) ==> !ok
        invariant ok ==> ParseWords(old(Rest()), n) == Prefixed(ws, ParseWords(Rest(), n - i))
        invariant old(ok) && !ok ==> ParseWords(old(Rest()), n).Failed?
      {
        ghost var s := Rest();
        var w := ReadWord();
        if ok {
          ListStep(ParseWord, s, n - i);
          PrefixedMore(ws, w, ParseWords(Rest(), n - i - 1));
        }
        ws := ws + [w];
      }
      assert ws + [] == ws;
    }

    method ReadHeader(version: nat) returns (h: Header)
      requires Valid()
      modifies this
      ensures Valid()
      ensures old(ok) ==> Agrees(ParseHeader(old(Rest()), version), ok, h, Rest())
      ensures !old(ok) ==> !ok
    {
      var sizes := ReadWords(3);
      var address: seq<U32> := [];
      if version >= 2 {
        address := ReadWords(1);
      }
      var fetch: seq<U32> := [];
      if version >= 3 {
        fetch := ReadWords(6);
      }
      var counts := ReadWords(6);
      h := HeaderOf(sizes, address, fetch, counts);
    }

    method ReadBlocks(ids: seq<U32>, blockSize: nat, window: nat) returns (memory: seq<Byte>)
      requires Valid()
      modifies this
      ensures Valid()
      ensures old(ok) ==> Agrees(ParseBlocks(old(Rest()), ids, blockSize, Zeros(window)), ok, memory, Rest())
      ensures !old(ok) ==> !ok
    {
      memory := Zeros(window);
      ghost var whole := ParseBlocks(Rest(), ids, blockSize, memory);
      var i := 0;
      while i < |ids|
        invariant Valid() && |memory| == window && 0 <= i <= |ids|
        invariant !old(ok) ==> !ok
        invariant ok ==> whole == ParseBlocks(Rest(), ids[i..], blockSize, memory)
        invariant old(ok) && !ok ==> whole.Failed?
      {
        var offset := ids[i] * blockSize;
        if offset >= window {
          ok := false;
          break;
        }
        memory := ReadBlock(ids[i..], blockSize, offset, memory);
        assert ids[i..][1..] == ids[i + 1..];
        i := i + 1;
      }
    }

    /** One stored block laid over the window, where the parser would lay it. */
    method ReadBlock(ids: seq<U32>, blockSize: nat, offset: nat, was: seq<Byte>) returns (memory: seq<Byte>)
      requires Valid() && ids != [] && offset == ids[0] * blockSize < |was|
      modifies this
      ensures Valid() && |memory| == |was|
      ensures !old(ok) ==> !ok
      ensures ok ==> ParseBlocks(old(Rest()), ids, blockSize, was) == ParseBlocks(Rest(), ids[1..], blockSize, memory)
      ensures old(ok) && !ok ==> ParseBlocks(old(Rest()), ids, blockSize, was).Failed?
    {
      var bytes := Raw(BlockLength(|was|, blockSize, offset));
      memory := Overlay(was, offset, bytes);
    }

    method ReadBlob() returns (b: Blob)
      requires Valid()
      modifies this
      ensures Valid()
      ensures old(ok) ==> Agrees(ParseBlob(old(Rest())), ok, b, Rest())
      ensures !old(ok) ==> !ok
    {
      var halves := ReadWords(2);
      var size := ReadWord();
      b := Blob(JoinHalves(halves[0], halves[1]), []);
      if !ok {
        return;
      }
      var code := Raw(size);
      b := b.(code := code);
    }

    method ReadBlobs(n: nat) returns (blobs: seq<Blob>)
      requires Valid() && ok
      modifies this
      ensures Valid()
      ensures Agrees(ParseBlobs(old(Rest()), n), ok, blobs, Rest())
    {
      blobs := [];
      var i := 0;
      ghost var whole := ParseBlobs(Rest(), n);
      PrefixedNil(whole);
      while i < n && ok
        invariant Valid() && |blobs| == i <= n
        invariant ok ==> whole == Prefixed(blobs, ParseBlobs(Rest(), n - i))
        invariant !ok ==> whole.Failed?
      {
        ghost var s := Rest();
        var b := ReadBlob();
        BlobRead(whole, s, n - i, blobs, b, ok, Rest());
        blobs := blobs + [b];
        i := i + 1;
      }
      if ok {
        AllBlobsRead(whole, Rest(), blobs);
      }
    }

    /** The fields of a draw are read without looking at the flag in between. */
    method ReadDraw(version: nat, blobs: seq<Blob>) returns (d: DrawItem)
      requires Valid()
      modifies this
      ensures Valid()
      ensures old(ok) ==> Agrees(ParseDraw(old(Rest()), version, blobs), ok, d, Rest())
      ensures !old(ok) ==> !ok
    {
      var count := ReadWord();
      var registers := ReadWords(count);
      var fields := ReadWords(6);
      d := DrawOf(version, registers, fields, blobs);
    }

    method ReadDraws(n: nat, version: nat, blobs: seq<Blob>) returns (draws: seq<DrawItem>)
      requires Valid() && ok
      modifies this
      ensures Valid()
      ensures Agrees(ParseDraws(old(Rest()), n, version, blobs), ok, draws, Rest())
    {
      draws := [];
      var i := 0;
      ghost var whole := ParseDraws(Rest(), n, version, blobs);
      PrefixedNil(whole);
      while i < n && ok
        invariant Valid() && |draws| == i <= n
        invariant ok ==> whole == Prefixed(draws, ParseDraws(Rest(), n - i, version, blobs))
        invariant !ok ==> whole.Failed?
      {
        ghost var s := Rest();
        var d := ReadDraw(version, blobs);
        DrawRead(whole, s, n - i, version, blobs, draws, d, ok, Rest());
        draws := draws + [d];
        i := i + 1;
      }
      if ok {
        AllDrawsRead(whole, Rest(), version, blobs, draws);
      }
    }

    method ReadBody(version: nat, h: Header) returns (x: Inputs)
      requires Valid() && ok && h.blockSize != 0
      modifies this
      ensures Valid()
      ensures Agrees(ParseBody(old(Rest()), version, h), ok, x, Rest())
    {
      x := h.front;
      var ids := ReadWords(h.blockCount);
      var guest := ReadBlocks(ids, h.blockSize, h.front.window);
      if !ok {
        return;
      }
      var blobCount := ReadWord();
      if !ok {
        return;
      }
      var blobs := ReadBlobs(blobCount);
      if !ok {
        return;
      }
      var draws := ReadDraws(h.drawCount, version, blobs);
      x := h.front.(guest := guest, draws := draws);
    }
  }

  /** `file` is nothing when it cannot be opened. */
  method ReadFrameCapture(file: Option<seq<Byte>>) returns (result: Option<Inputs>)
    ensures result == if file.Some? && Parse(file.value).Parsed? then Some(Parse(file.value).value) else None
  {
    if file.None? {
      return None;
    }
    var r := new Reader(file.value);
    var magic := r.Raw(8);
    if !r.ok || magic != Magic {
      return None;
    }
    var version := r.ReadWord();
    if version > NewestVersion || version == 0 {
      // A version field cut short reads as something; either way the file is refused.
      return None;
    }
    var h := r.ReadHeader(version);
    if !r.ok || h.blockSize == 0 {
      return None;
    }
    var x := r.ReadBody(version, h);
    if !r.ok {
      return None;
    }
    return Some(x);
  }

  // ---------------------------------------------------------------- writing

  /** `capacity` is how many bytes the device takes before a write comes up short. */
  class Writer {
    const capacity: nat
    var out: seq<Byte>
    var ok: bool
    // Everything asked of the writer, written or not.
    ghost var asked: seq<Byte>

    ghost predicate Valid()
      reads this
    {
      if ok then out == asked && |asked| <= capacity else |asked| > capacity
    }

    constructor (capacity: nat)
      ensures Valid() && asked == [] && this.capacity == capacity
    {
      this.capacity, out, ok, asked := capacity, [], true, [];
    }

    method Raw(bytes: seq<Byte>)
      requires Valid()
      modifies this
      ensures Valid() && asked == old(asked) + bytes
    {
      asked := asked + bytes;
      if !ok {
        return;
      }
      if |out| + |bytes| <= capacity {
        out := out + bytes;
      } else {
        out := out + bytes[..capacity - |out|];
        ok := false;
      }
    }

    method PutWords(ns: seq<U32>)
      requires Valid()
      modifies this
      ensures Valid() && asked == old(asked) + Words(ns)
    {
      for i := 0 to |ns|
        invariant Valid() && asked + Words(ns[i..]) == old(asked) + Words(ns)
      {
        WordsSplit(ns, i);
        Moved(asked, Word(ns[i]), Words(ns[i + 1..]));
        Raw(Word(ns[i]));
      }
    }

    method PutBlocks(x: Inputs, ids: seq<U32>)
      requires Valid() && x.window <= |x.guest| && forall i :: 0 <= i < |ids| ==> ids[i] * BlockSize < x.window
      modifies this
      ensures Valid() && asked == old(asked) + Blocks(x, ids)
    {
      for i := 0 to |ids|
        invariant Valid() && asked + Blocks(x, ids[i..]) == old(asked) + Blocks(x, ids)
      {
        BlocksSplit(x, ids, i);
        Moved(asked, Block(x, ids[i]), Blocks(x, ids[i + 1..]));
        Raw(Block(x, ids[i]));
      }
    }

    method PutBlob(b: Blob)
      requires Valid() && |b.code| < 0x1_0000_0000
      modifies this
      ensures Valid() && asked == old(asked) + BlobBytes(b)
    {
      Raw(Long(b.hash));
      Raw(Word(|b.code|));
      Raw(b.code);
    }

    method PutBlobs(blobs: seq<Blob>)
      requires Valid() && SmallBlobs(blobs)
      modifies this
      ensures Valid() && asked == old(asked) + BlobsBytes(blobs)
    {
      for i := 0 to |blobs|
        invariant Valid() && asked + BlobsBytes(blobs[i..]) == old(asked) + BlobsBytes(blobs)
      {
        BlobsBytesSplit(blobs, i);
        Moved(asked, BlobBytes(blobs[i]), BlobsBytes(blobs[i + 1..]));
        PutBlob(blobs[i]);
      }
    }

    method PutDraw(d: DrawItem, ref: DrawRef, ghost blobs: seq<Blob>)
      requires Valid() && |d.registers| < 0x1_0000_0000 && |blobs| < 0xFFFF_FFFF
      requires ref == DrawRef(BlobRef(blobs, d.vs), BlobRef(blobs, d.ps))
      modifies this
      ensures Valid() && asked == old(asked) + DrawBytes(d, blobs)
    {
      var fields: seq<U32> := [ref.vs, ref.ps, d.primType, d.indexCount, Flags(d), d.indexGuestBase];
      assert fields == DrawFields(d, blobs);
      Raw(Word(|d.registers|));
      PutWords(d.registers);
      PutWords(fields);
      Appended(old(asked), Word(|d.registers|), Words(d.registers), Words(fields));
    }

    method PutDraws(draws: seq<DrawItem>, refs: seq<DrawRef>, ghost blobs: seq<Blob>)
      requires Valid() && SmallDraws(draws) && |blobs| < 0xFFFF_FFFF && |refs| == |draws|
      requires Referenced(refs, draws, blobs)
      modifies this
      ensures Valid() && asked == old(asked) + DrawsBytes(draws, blobs)
    {
      for i := 0 to |draws|
        invariant Valid() && asked + DrawsBytes(draws[i..], blobs) == old(asked) + DrawsBytes(draws, blobs)
      {
        DrawsBytesSplit(draws, i, blobs);
        Moved(asked, DrawBytes(draws[i], blobs), DrawsBytes(draws[i + 1..], blobs));
        PutDraw(draws[i], refs[i], blobs);
      }
    }
  }

  lemma {:induction false} WordsSplit(ns: seq<U32>, i: nat)
    requires i < |ns|
    ensures Words(ns[i..]) == Word(ns[i]) + Words(ns[i + 1..])
  {
    assert ns[i..][0] == ns[i] && ns[i..][1..] == ns[i + 1..];
  }

  lemma {:induction false} BlocksSplit(x: Inputs, ids: seq<U32>, i: nat)
    requires i < |ids| && x.window <= |x.guest| && forall k :: 0 <= k < |ids| ==> ids[k] * BlockSize < x.window
    ensures Blocks(x, ids[i..]) == Block(x, ids[i]) + Blocks(x, ids[i + 1..])
  {
    assert ids[i..][0] == ids[i] && ids[i..][1..] == ids[i + 1..];
  }

  lemma {:induction false} BlobsBytesSplit(blobs: seq<Blob>, i: nat)
    requires i < |blobs| && SmallBlobs(blobs)
    ensures SmallBlobs(blobs[i..]) && SmallBlobs(blobs[i + 1..]) && |blobs[i].code| < 0x1_0000_0000
    ensures BlobsBytes(blobs[i..]) == BlobBytes(blobs[i]) + BlobsBytes(blobs[i + 1..])
  {
    assert blobs[i..][0] == blobs[i] && blobs[i..][1..] == blobs[i + 1..];
  }

  lemma {:induction false} DrawsBytesSplit(draws: seq<DrawItem>, i: nat, blobs: seq<Blob>)
    requires i < |draws| && SmallDraws(draws) && |blobs| < 0xFFFF_FFFF
    ensures SmallDraws(draws[i..]) && SmallDraws(draws[i + 1..]) && draws[i] in draws
    ensures DrawsBytes(draws[i..], blobs) == DrawBytes(draws[i], blobs) + DrawsBytes(draws[i + 1..], blobs)
  {
    assert draws[i..][0] == draws[i] && draws[i..][1..] == draws[i + 1..];
  }

  lemma {:induction false} Appended(a: seq<Byte>, b: seq<Byte>, c: seq<Byte>, d: seq<Byte>)
    ensures a + b + c + d == a + (b + c + d)
  {}

  lemma {:induction false} Moved(a: seq<Byte>, b: seq<Byte>, c: seq<Byte>)
    ensures a + (b + c) == (a + b) + c
  {}

  method BlockIsZero(bytes: seq<Byte>) returns (zero: bool)
    ensures zero <==> IsZero(bytes)
  {
    for i := 0 to |bytes|
      invariant forall j :: 0 <= j < i ==> bytes[j] == 0
    {
      if bytes[i] != 0 {
        return false;
      }
    }
    return true;
  }

  lemma {:induction false} NextBlock(x: Inputs, id: nat, ids: seq<U32>)
    requires x.window <= |x.guest| && id * BlockSize < x.window && id < 0x1_0000_0000
    ensures ids + BlockIds(x, id) == (if IsZero(Block(x, id)) then ids else ids + [id]) + BlockIds(x, id + 1)
  {
    var more := BlockIds(x, id + 1);
    assert [] + more == more;
    assert ids + ([id] + more) == ids + [id] + more;
  }

  /** The blocks kept before this one, then the ones from here on, are all the blocks. */
  predicate ScannedTo(x: Inputs, id: nat, offset: nat, ids: seq<U32>)
    requires x.window <= |x.guest|
  {
    offset == id * BlockSize && ids + BlockIds(x, id) == BlockIds(x, 0)
  }

  method ScanBlock(x: Inputs, id: nat, offset: nat, ids: seq<U32>) returns (ids': seq<U32>)
    requires x.window <= |x.guest| && offset < x.window <= 0xFFFF_0000 && ScannedTo(x, id, offset, ids)
    ensures ScannedTo(x, id + 1, offset + BlockSize, ids')
  {
    var zero := BlockIsZero(Block(x, id));
    NextBlock(x, id, ids);
    ids' := if zero then ids else ids + [id];
  }

  /** The source's offset is 32 bits wide, so it can step past the window only up to this size. */
  method ScanBlocks(x: Inputs) returns (ids: seq<U32>)
    requires x.window <= |x.guest| && x.window <= 0xFFFF_0000
    ensures ids == BlockIds(x, 0)
    ensures forall k: nat :: k in ids <==> BlockHoldsSomething(x, k)
  {
    ids := [];
    var id, offset := 0, 0;
    while offset < x.window
      invariant ScannedTo(x, id, offset, ids)
      decreases x.window - offset
    {
      ids := ScanBlock(x, id, offset, ids);
      id, offset := id + 1, offset + BlockSize;
    }
    BlocksKeptIff(x);
  }

  /** The hash map over the table finds what a search of the table finds. */
  ghost predicate Indexes(index: map<U64, nat>, blobs: seq<Blob>) {
    forall h: U64 :: (h in index <==> IndexOf(blobs, h) < |blobs|) && (h in index ==> index[h] == IndexOf(blobs, h))
  }

  method Intern(slot: Shader, blobs: seq<Blob>, index: map<U64, nat>)
    returns (ref: U32, blobs': seq<Blob>, index': map<U64, nat>)
    requires Indexes(index, blobs) && |blobs| < 0xFFFF_FFFE
    ensures Indexes(index', blobs') && blobs' == Interned(blobs, slot) && ref == BlobRef(blobs', slot)
  {
    blobs', index' := blobs, index;
    if slot.code == [] {
      return NoBlob, blobs', index';
    }
    if slot.hash in index {
      return index[slot.hash], blobs', index';
    }
    ref := |blobs|;
    blobs' := blobs + [Blob(slot.hash, slot.code)];
    index' := index[slot.hash := |blobs|];
    InternedHolds(blobs, slot);
    forall h: U64
      ensures (h in index' <==> IndexOf(blobs', h) < |blobs'|) && (h in index' ==> index'[h] == IndexOf(blobs', h))
    {
      InternedFinds(blobs, slot, h);
    }
  }

  lemma {:induction false} InternedFinds(blobs: seq<Blob>, slot: Shader, hash: U64)
    ensures IndexOf(blobs, hash) < |blobs| ==> IndexOf(Interned(blobs, slot), hash) == IndexOf(blobs, hash)
    ensures IndexOf(blobs, hash) == |blobs| && (slot.code == [] || slot.hash != hash) ==>
              IndexOf(Interned(blobs, slot), hash) == |Interned(blobs, slot)|
  {
    if IndexOf(blobs, hash) < |blobs| {
      InternedKeeps(blobs, slot, hash);
    } else {
      assert forall j :: 0 <= j < |blobs| ==> blobs[j].hash != hash;
      assert forall j :: 0 <= j < |blobs| ==> Interned(blobs, slot)[j] == blobs[j];
    }
  }

  lemma {:induction false} RefKeeps(blobs: seq<Blob>, slot: Shader, held: Shader)
    requires |blobs| < 0xFFFF_FFFE && Holds(blobs, held)
    ensures BlobRef(Interned(blobs, slot), held) == BlobRef(blobs, held)
    ensures Holds(Interned(blobs, slot), held)
  {
    if held.code != [] {
      InternedKeeps(blobs, slot, held.hash);
    }
  }

  lemma {:induction false} TableSnoc(draws: seq<DrawItem>, i: nat)
    requires i < |draws|
    ensures BlobTable(Slots(draws[..i + 1]))
            == Interned(Interned(BlobTable(Slots(draws[..i])), draws[i].vs), draws[i].ps)
  {
    var before, both := Slots(draws[..i]), Slots(draws[..i + 1]);
    assert draws[..i + 1][..i] == draws[..i];
    assert both == before + [draws[i].vs, draws[i].ps];
    assert both[..|both| - 1] == before + [draws[i].vs];
    assert both[..|both| - 1][..|before|] == before;
  }

  /** `held` keeps its reference while a draw's two shaders are interned. */
  lemma {:induction false} RefKeepsTwice(blobs: seq<Blob>, d: DrawItem, held: Shader)
    requires |blobs| < 0xFFFF_FFFD && Holds(blobs, held)
    ensures var blobs' := Interned(Interned(blobs, d.vs), d.ps);
            BlobRef(blobs', held) == BlobRef(blobs, held) && Holds(blobs', held)
  {
    RefKeeps(blobs, d.vs, held);
    RefKeeps(Interned(blobs, d.vs), d.ps, held);
  }

  method InternDraw(d: DrawItem, blobs: seq<Blob>, index: map<U64, nat>)
    returns (ref: DrawRef, blobs': seq<Blob>, index': map<U64, nat>)
    requires Indexes(index, blobs) && |blobs| < 0xFFFF_FFFD
    ensures Indexes(index', blobs') && blobs' == Interned(Interned(blobs, d.vs), d.ps)
    ensures Holds(blobs', d.vs) && Holds(blobs', d.ps)
    ensures ref == DrawRef(BlobRef(blobs', d.vs), BlobRef(blobs', d.ps))
  {
    var vs, ps;
    ghost var middle := Interned(blobs, d.vs);
    vs, blobs', index' := Intern(d.vs, blobs, index);
    ps, blobs', index' := Intern(d.ps, blobs', index');
    OwnSlotHeld(blobs, d.vs);
    OwnSlotHeld(middle, d.ps);
    RefKeeps(middle, d.ps, d.vs);
    ref := DrawRef(vs, ps);
  }

  ghost predicate Referenced(refs: seq<DrawRef>, draws: seq<DrawItem>, blobs: seq<Blob>)
    requires |blobs| < 0xFFFF_FFFF
  {
    && |refs| <= |draws|
    && forall j :: 0 <= j < |refs| ==>
         Holds(blobs, draws[j].vs) && Holds(blobs, draws[j].ps)
         && refs[j] == DrawRef(BlobRef(blobs, draws[j].vs), BlobRef(blobs, draws[j].ps))
  }

  lemma {:induction false} ReferencedKeeps(refs: seq<DrawRef>, draws: seq<DrawItem>, blobs: seq<Blob>, d: DrawItem)
    requires |blobs| < 0xFFFF_FFFD && Referenced(refs, draws, blobs)
    ensures Referenced(refs, draws, Interned(Interned(blobs, d.vs), d.ps))
  {
    forall j | 0 <= j < |refs|
      ensures var blobs' := Interned(Interned(blobs, d.vs), d.ps);
              Holds(blobs', draws[j].vs) && Holds(blobs', draws[j].ps)
              && refs[j] == DrawRef(BlobRef(blobs', draws[j].vs), BlobRef(blobs', draws[j].ps))
    {
      RefKeepsTwice(blobs, d, draws[j].vs);
      RefKeepsTwice(blobs, d, draws[j].ps);
    }
  }

  /** The table, the map and the references after the first `n` draws. */
  ghost predicate InternedSoFar(draws: seq<DrawItem>, n: nat, blobs: seq<Blob>, index: map<U64, nat>, refs: seq<DrawRef>) {
    && n <= |draws| < 0x7FFF_FFFD && |refs| == n && |blobs| <= 2 * n
    && blobs == BlobTable(Slots(draws[..n]))
    && Indexes(index, blobs)
    && Referenced(refs, draws, blobs)
  }

  lemma {:induction false} NothingInterned(draws: seq<DrawItem>)
    requires |draws| < 0x7FFF_FFFD
    ensures InternedSoFar(draws, 0, [], map[], [])
  {
    assert draws[..0] == [];
  }

  lemma {:induction false} ReferencedSnoc(refs: seq<DrawRef>, draws: seq<DrawItem>, blobs: seq<Blob>, ref: DrawRef)
    requires |blobs| < 0xFFFF_FFFF && Referenced(refs, draws, blobs) && |refs| < |draws|
    requires var d := draws[|refs|];
             Holds(blobs, d.vs) && Holds(blobs, d.ps) && ref == DrawRef(BlobRef(blobs, d.vs), BlobRef(blobs, d.ps))
    ensures Referenced(refs + [ref], draws, blobs)
  {}

  method InternNext(draws: seq<DrawItem>, n: nat, blobs: seq<Blob>, index: map<U64, nat>, ghost refs: seq<DrawRef>)
    returns (ref: DrawRef, blobs': seq<Blob>, index': map<U64, nat>)
    requires InternedSoFar(draws, n, blobs, index, refs) && n < |draws|
    ensures InternedSoFar(draws, n + 1, blobs', index', refs + [ref])
  {
    ReferencedKeeps(refs, draws, blobs, draws[n]);
    TableSnoc(draws, n);
    ref, blobs', index' := InternDraw(draws[n], blobs, index);
    ReferencedSnoc(refs, draws, blobs', ref);
  }

  method InternShaders(draws: seq<DrawItem>) returns (blobs: seq<Blob>, refs: seq<DrawRef>)
    requires |draws| < 0x7FFF_FFFD
    ensures blobs == BlobTable(Slots(draws)) && |blobs| < 0xFFFF_FFFF && |refs| == |draws|
    ensures Referenced(refs, draws, blobs)
  {
    blobs, refs := [], [];
    var index: map<U64, nat> := map[];
    NothingInterned(draws);
    for i := 0 to |draws|
      invariant InternedSoFar(draws, i, blobs, index, refs)
    {
      var ref;
      ref, blobs, index := InternNext(draws, i, blobs, index, refs);
      refs := refs + [ref];
    }
    assert draws[..|draws|] == draws;
  }

  lemma {:induction false} OwnSlotHeld(blobs: seq<Blob>, slot: Shader)
    ensures Holds(Interned(blobs, slot), slot)
  {
    if slot.code != [] {
      InternedHolds(blobs, slot);
    }
  }

  method WriteHeader(w: Writer, x: Inputs, blockCount: U32)
    requires w.Valid() && |x.draws| < 0x1_0000_0000
    modifies w
    ensures w.Valid() && w.asked == old(w.asked) + HeaderBytes(NewestVersion, x, blockCount)
  {
    w.PutWords([x.width, x.height, x.mirrorBytes]);
    w.PutWords([x.frontBufferAddress]);
    w.PutWords(x.frontBufferFetch);
    w.PutWords([x.window, Low(x.sequence), High(x.sequence), |x.draws|, BlockSize, blockCount]);
  }

  /** The whole file, or nothing: a capture that could not be written in full is removed. */
  method WriteFrameCapture(x: Inputs, capacity: nat) returns (file: Option<seq<Byte>>)
    requires Writable(x) && x.window <= 0xFFFF_0000
    ensures file == if |Encode(NewestVersion, x)| <= capacity then Some(Encode(NewestVersion, x)) else None
  {
    var blobs, refs := InternShaders(x.draws);
    var ids := ScanBlocks(x);
    BlockCountFits(x, 0);
    TableIsSmall(x.draws, x);
    var w := new Writer(capacity);
    w.Raw(Magic);
    assert w.asked == Magic;
    w.Raw(Word(NewestVersion));
    WriteHeader(w, x, |ids|);
    w.PutWords(ids);
    w.PutBlocks(x, ids);
    w.Raw(Word(|blobs|));
    w.PutBlobs(blobs);
    w.PutDraws(x.draws, refs, blobs);
    return if w.ok then Some(w.out) else None;
  }
}
